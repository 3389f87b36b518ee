/** The atomic batch update that fills in missing bank and cash account ids of stores from their region's register. */
module BatchUpdate {
  import opened Wrappers

  datatype Store = Store(active: bool, region: Option<string>, bank: Option<int>, cash: Option<int>)

  /** Stores by branch code, which is unique. */
  type Stores = map<string, Store>

  datatype Register = Register(region: string, bank: Option<int>, cash: Option<int>, createdAt: int)

  /** Neither missing nor zero, as a condition on the value reads it. */
  predicate Truthy(id: Option<int>) {
    id.Some? && id.value != 0
  }

  predicate HasBoth(s: Store) {
    s.bank.Some? && s.cash.Some?
  }

  predicate Needs(s: Store) {
    s.active && !HasBoth(s)
  }

  // ----- one register per region

  predicate Usable(r: Register) {
    r.bank.Some? && r.cash.Some? && r.region != ""
  }

  function Find(list: seq<Register>, region: string): Option<Register> {
    if list == [] then None
    else if list[0].region == region then Some(list[0])
    else Find(list[1..], region)
  }

  /** The first usable register of each region. */
  function ByRegion(registers: seq<Register>): seq<Register> {
    if |registers| == 0 then []
    else
      var before := ByRegion(registers[..|registers| - 1]);
      var r := registers[|registers| - 1];
      if Usable(r) && Find(before, r.region).None? then before + [r] else before
  }

  /** The register table as queried: newest first. */
  ghost predicate NewestFirst(registers: seq<Register>) {
    forall i, j :: 0 <= i < j < |registers| ==> registers[i].createdAt >= registers[j].createdAt
  }

  lemma {:induction false} FindAppend(list: seq<Register>, r: Register, region: string)
    ensures Find(list + [r], region) ==
      if Find(list, region).Some? then Find(list, region) else if r.region == region then Some(r) else None
  {
    if list == [] {
      assert list + [r] == [r];
    } else {
      FindAppend(list[1..], r, region);
      assert (list + [r])[1..] == list[1..] + [r];
    }
  }

  /** The register used for a region is a newest one with both ids, and there is one whenever the region has any. */
  lemma {:induction false} NewestUsableIsFound(registers: seq<Register>, region: string)
    requires NewestFirst(registers)
    ensures
      match Find(ByRegion(registers), region)
      case Some(r) =>
        && r in registers && Usable(r) && r.region == region
        && forall x :: x in registers && Usable(x) && x.region == region ==> x.createdAt <= r.createdAt
      case None =>
        forall x :: x in registers ==> !(Usable(x) && x.region == region)
  {
    if |registers| == 0 {
    } else {
      var before := registers[..|registers| - 1];
      var r := registers[|registers| - 1];
      NewestUsableIsFound(before, region);
      FindAppend(ByRegion(before), r, region);
      assert registers == before + [r];
    }
  }

  // ----- one store

  /** The row written for a store, if there is anything to write. */
  function Change(s: Store, list: seq<Register>): Option<Store> {
    if s.region.None? || s.region.value == "" then None
    else
      match Find(list, s.region.value)
      case None => None
      case Some(r) =>
        var setBank := !Truthy(s.bank) && Truthy(r.bank);
        var setCash := !Truthy(s.cash) && Truthy(r.cash);
        if setBank || setCash
        then Some(s.(bank := if setBank then r.bank else s.bank, cash := if setCash then r.cash else s.cash))
        else None
  }

  function Patched(s: Store, list: seq<Register>): Store {
    Change(s, list).GetOr(s)
  }

  predicate Fillable(s: Store, list: seq<Register>) {
    && s.region.Some? && s.region.value != ""
    && var found := Find(list, s.region.value);
       && found.Some?
       && (s.bank.None? ==> Truthy(found.value.bank))
       && (s.cash.None? ==> Truthy(found.value.cash))
  }

  // ----- all stores

  function Patch(stores: Stores, codes: seq<string>, list: seq<Register>): Stores {
    map c | c in stores :: if c in codes then Patched(stores[c], list) else stores[c]
  }

  /** The branch codes the service selects, in the order the database returns them. */
  ghost predicate Selects(codes: seq<string>, stores: Stores) {
    && (forall c :: c in codes <==> c in stores && Needs(stores[c]))
    && (forall i, j :: 0 <= i < j < |codes| ==> codes[i] != codes[j])
  }

  predicate AllFillable(stores: Stores, codes: seq<string>, list: seq<Register>)
    requires forall c :: c in codes ==> c in stores
  {
    forall i :: 0 <= i < |codes| ==> Fillable(stores[codes[i]], list)
  }

  ghost predicate AllActiveHaveBoth(stores: Stores) {
    forall c :: c in stores ==> !Needs(stores[c])
  }

  lemma PatchCompletesExactlyWhenFillable(stores: Stores, codes: seq<string>, list: seq<Register>)
    requires Selects(codes, stores)
    ensures AllActiveHaveBoth(Patch(stores, codes, list)) <==> AllFillable(stores, codes, list)
  {
    var after := Patch(stores, codes, list);
    if AllActiveHaveBoth(after) {
      forall i | 0 <= i < |codes|
        ensures Fillable(stores[codes[i]], list)
      {
        assert codes[i] in codes && codes[i] in after;
      }
    }
    if AllFillable(stores, codes, list) {
      forall c | c in after
        ensures !Needs(after[c])
      {
        if c in codes {
          var i :| 0 <= i < |codes| && codes[i] == c;
          assert Fillable(stores[codes[i]], list);
        }
      }
    }
  }

  lemma PatchSnoc(stores: Stores, codes: seq<string>, i: nat, list: seq<Register>)
    requires i < |codes| && codes[i] in stores
    ensures Patch(stores, codes[..i + 1], list)
         == Patch(stores, codes[..i], list)[codes[i] := Patched(stores[codes[i]], list)]
  {
    hide Patched;
    assert codes[..i + 1] == codes[..i] + [codes[i]];
  }

  lemma NotYetPatched(stores: Stores, codes: seq<string>, i: nat, list: seq<Register>)
    requires Selects(codes, stores) && i < |codes|
    ensures
      var done := Patch(stores, codes[..i], list);
      codes[i] in stores && codes[i] in done && done[codes[i]] == stores[codes[i]]
  {
    assert codes[i] in codes;
    assert codes[i] !in codes[..i];
  }

  lemma NothingPatched(stores: Stores, codes: seq<string>, list: seq<Register>)
    ensures Patch(stores, codes[..0], list) == stores
  {
  }

  // ----- what a completed update leaves

  /** A newest register of the region among those that have both ids. */
  ghost predicate NewestOf(registers: seq<Register>, region: string, r: Register) {
    && r in registers && r.region == region && r.bank.Some? && r.cash.Some?
    && forall x :: x in registers && x.region == region && x.bank.Some? && x.cash.Some? ==> x.createdAt <= r.createdAt
  }

  /** An id that was there and not zero stays; one that was not is the register's, unless that is zero. */
  predicate FilledFrom(was: Option<int>, now: Option<int>, offered: Option<int>) {
    now == if was.GetOr(0) == 0 && offered.GetOr(0) != 0 then offered else was
  }

  /** Every store that missed an id is filled from a newest register of its region, and nothing else has changed. */
  ghost predicate FilledIn(before: Stores, after: Stores, registers: seq<Register>) {
    && after.Keys == before.Keys
    && forall c :: c in before ==>
         var s, t := before[c], after[c];
         && t.active == s.active && t.region == s.region
         && if s.active && (s.bank.None? || s.cash.None?) then
              && s.region.Some?
              && exists r :: NewestOf(registers, s.region.value, r)
                             && FilledFrom(s.bank, t.bank, r.bank) && FilledFrom(s.cash, t.cash, r.cash)
            else t == s
  }

  lemma PatchFillsIn(stores: Stores, codes: seq<string>, registers: seq<Register>)
    requires Selects(codes, stores) && NewestFirst(registers)
    requires AllFillable(stores, codes, ByRegion(registers))
    ensures FilledIn(stores, Patch(stores, codes, ByRegion(registers)), registers)
  {
    hide ByRegion, Find;
    var list := ByRegion(registers);
    var after := Patch(stores, codes, list);
    forall c | c in stores && Needs(stores[c])
      ensures stores[c].region.Some?
      ensures exists r :: NewestOf(registers, stores[c].region.value, r)
                && FilledFrom(stores[c].bank, after[c].bank, r.bank)
                && FilledFrom(stores[c].cash, after[c].cash, r.cash)
    {
      assert c in codes;
      var i :| 0 <= i < |codes| && codes[i] == c;
      assert Fillable(stores[codes[i]], list);
      NewestUsableIsFound(registers, stores[c].region.value);
      assert NewestOf(registers, stores[c].region.value, Find(list, stores[c].region.value).value);
    }
  }

  lemma NothingToFill(stores: Stores, registers: seq<Register>)
    requires AllActiveHaveBoth(stores)
    ensures FilledIn(stores, stores, registers)
  {
  }

  /** The register of the store's region has an id to give that the store lacks. */
  predicate CanGive(s: Store, list: seq<Register>) {
    && s.region.Some? && s.region.value != ""
    && var found := Find(list, s.region.value);
       && found.Some?
       && ((s.bank.GetOr(0) == 0 && found.value.bank.GetOr(0) != 0)
           || (s.cash.GetOr(0) == 0 && found.value.cash.GetOr(0) != 0))
  }

  function CountGiven(stores: Stores, codes: seq<string>, list: seq<Register>): nat
    requires forall c :: c in codes ==> c in stores
  {
    if |codes| == 0 then 0
    else
      CountGiven(stores, codes[..|codes| - 1], list) + if CanGive(stores[codes[|codes| - 1]], list) then 1 else 0
  }

  lemma ChangesExactlyWhen(s: Store, list: seq<Register>)
    ensures Change(s, list).Some? <==> CanGive(s, list)
  {
    hide Find;
  }

  lemma {:induction false} AllAreGiven(stores: Stores, codes: seq<string>, list: seq<Register>)
    requires forall c :: c in codes ==> c in stores && Needs(stores[c]) && Fillable(stores[c], list)
    ensures CountGiven(stores, codes, list) == |codes|
  {
    if |codes| == 0 {
    } else {
      hide Find;
      assert codes[|codes| - 1] in codes;
      AllAreGiven(stores, codes[..|codes| - 1], list);
    }
  }

  /** Stores that lack an id and can all be filled are all given one. */
  lemma FillableAreGiven(stores: Stores, codes: seq<string>, list: seq<Register>)
    requires Selects(codes, stores)
    ensures AllFillable(stores, codes, list) ==> CountGiven(stores, codes, list) == |codes|
  {
    hide Fillable, Needs;
    if AllFillable(stores, codes, list) {
      AllAreGiven(stores, codes, list);
    }
  }

  // ----- the run

  /** Where the database fails, if it does. */
  datatype Fault = NoFault | AtRegisters | AtStores | AtBackup | AtUpdate(index: nat) | AtCount | AtCommit | AtAlerts

  datatype Error =
    | NoRegion(code: string)
    | NoRegister(region: string)
    | NoRegisterData
    | StillMissing
    | Database
    | RolledBack

  datatype Report = Report(totalStores: nat, updated: nat, skipped: nat, errors: seq<Error>, dryRun: bool)

  function CountWithRegister(stores: Stores, codes: seq<string>, list: seq<Register>): nat
    requires forall c :: c in codes ==> c in stores
  {
    if |codes| == 0 then 0
    else
      var s := stores[codes[|codes| - 1]];
      CountWithRegister(stores, codes[..|codes| - 1], list)
      + if s.region.Some? && Find(list, s.region.value).Some? then 1 else 0
  }

  /** A row saved by the backup. */
  datatype Saved = Saved(code: string, bank: Option<int>, cash: Option<int>)

  function Backup(stores: Stores, codes: seq<string>): seq<Saved>
    requires forall c :: c in codes ==> c in stores
  {
    seq(|codes|, i requires 0 <= i < |codes| => Saved(codes[i], stores[codes[i]].bank, stores[codes[i]].cash))
  }

  function Restore(stores: Stores, saved: Saved): Stores {
    if saved.code in stores then stores[saved.code := stores[saved.code].(bank := saved.bank, cash := saved.cash)]
    else stores
  }

  function RestoreAll(stores: Stores, backup: seq<Saved>, stuck: set<string>): Stores {
    if |backup| == 0 then stores
    else
      var before := RestoreAll(stores, backup[..|backup| - 1], stuck);
      var saved := backup[|backup| - 1];
      if saved.code in stuck then before else Restore(before, saved)
  }

  /** Putting back what the backup holds undoes the update row by row, except for the rows that are stuck. */
  lemma {:induction false} RestoringUndoes(
    before: Stores, now: Stores, codes: seq<string>, stuck: set<string>)
    requires forall c :: c in codes ==> c in before
    requires now.Keys == before.Keys
    requires forall c :: c in now ==> now[c].(bank := before[c].bank, cash := before[c].cash) == before[c]
    ensures RestoreAll(now, Backup(before, codes), stuck)
         == map c | c in now :: if c in codes && c !in stuck then before[c] else now[c]
  {
    if |codes| == 0 {
    } else {
      var rest := codes[..|codes| - 1];
      RestoringUndoes(before, now, rest, stuck);
      assert Backup(before, codes)[..|codes| - 1] == Backup(before, rest);
      assert codes == rest + [codes[|codes| - 1]];
    }
  }

  /** All rows restorable, or none of them: otherwise a failure after the commit leaves a mixture. */
  predicate AllOrNoneStuck(codes: seq<string>, stuck: set<string>) {
    (forall i :: 0 <= i < |codes| ==> codes[i] !in stuck) || (forall i :: 0 <= i < |codes| ==> codes[i] in stuck)
  }

  lemma MixtureExactlyWhenSomeAreStuck(stores: Stores, codes: seq<string>, list: seq<Register>, stuck: set<string>)
    requires Selects(codes, stores) && AllFillable(stores, codes, list)
    ensures
      var after := RestoreAll(Patch(stores, codes, list), Backup(stores, codes), stuck);
      (AllActiveHaveBoth(after) || after == stores) <==> AllOrNoneStuck(codes, stuck)
  {
    var now := Patch(stores, codes, list);
    RestoringUndoes(stores, now, codes, stuck);
    PatchCompletesExactlyWhenFillable(stores, codes, list);
    var after := RestoreAll(now, Backup(stores, codes), stuck);
    assert forall c :: c in codes ==> now[c] != stores[c];
    if i :| 0 <= i < |codes| && codes[i] !in stuck {
      assert codes[i] in after && after[codes[i]] == stores[codes[i]];
      assert !AllActiveHaveBoth(after);
      if after == stores {
        forall j | 0 <= j < |codes|
          ensures codes[j] !in stuck
        {
          assert codes[j] in codes;
        }
      }
    } else {
      assert after == now;
    }
  }

  lemma NothingToUndo(stores: Stores, codes: seq<string>, stuck: set<string>)
    requires forall c :: c in codes ==> c in stores
    ensures RestoreAll(stores, Backup(stores, codes), stuck) == stores
  {
    RestoringUndoes(stores, stores, codes, stuck);
  }

  // ----- dry run

  /** The preview counts a store as updatable when its region has any register. */
  function DryReport(stores: Stores, codes: seq<string>, list: seq<Register>): Report
    requires forall c :: c in codes ==> c in stores
  {
    var updated := CountWithRegister(stores, codes, list);
    Report(|codes|, updated, if updated <= |codes| then |codes| - updated else 0, [], true)
  }

  lemma {:induction false} CountIsFullExactlyWhen(stores: Stores, codes: seq<string>, list: seq<Register>)
    requires forall c :: c in codes ==> c in stores
    ensures CountWithRegister(stores, codes, list) <= |codes|
    ensures CountWithRegister(stores, codes, list) == |codes| <==>
      forall i :: 0 <= i < |codes| ==>
        stores[codes[i]].region.Some? && Find(list, stores[codes[i]].region.value).Some?
  {
    if |codes| == 0 {
    } else {
      CountIsFullExactlyWhen(stores, codes[..|codes| - 1], list);
    }
  }

  lemma {:induction false} FoundIsUsable(registers: seq<Register>, region: string)
    ensures
      var found := Find(ByRegion(registers), region);
      found.Some? ==> found.value in registers && Usable(found.value) && region != ""
  {
    if |registers| == 0 {
    } else {
      FoundIsUsable(registers[..|registers| - 1], region);
      FindAppend(ByRegion(registers[..|registers| - 1]), registers[|registers| - 1], region);
    }
  }

  /** No id that a selected store is missing is zero in the register of its region. */
  predicate NoZeroWhereMissing(stores: Stores, codes: seq<string>, list: seq<Register>)
    requires forall c :: c in codes ==> c in stores
  {
    forall i :: 0 <= i < |codes| && stores[codes[i]].region.Some? ==>
      var s := stores[codes[i]];
      match Find(list, s.region.value)
      case Some(r) => (s.bank.None? ==> r.bank != Some(0)) && (s.cash.None? ==> r.cash != Some(0))
      case None => true
  }

  /** A live run can complete every store exactly if the preview skips none and no id to be written is zero. */
  lemma DryRunPredictsExactlyWhen(stores: Stores, codes: seq<string>, registers: seq<Register>)
    requires Selects(codes, stores)
    ensures
      var list := ByRegion(registers);
      AllFillable(stores, codes, list) <==>
        DryReport(stores, codes, list).skipped == 0 && NoZeroWhereMissing(stores, codes, list)
  {
    var list := ByRegion(registers);
    CountIsFullExactlyWhen(stores, codes, list);
    forall i | 0 <= i < |codes| && stores[codes[i]].region.Some?
      ensures
        var region := stores[codes[i]].region.value;
        Find(list, region).Some? ==> Usable(Find(list, region).value) && region != ""
    {
      FoundIsUsable(registers, stores[codes[i]].region.value);
    }
  }

  class StoreTable {
    var stores: Stores

    constructor (stores: Stores)
      ensures this.stores == stores
    {
      this.stores := stores;
    }

    /** The loop that keeps the first register of each region. */
    static method CollectByRegion(registers: seq<Register>) returns (list: seq<Register>)
      ensures list == ByRegion(registers)
    {
      list := [];
      var seen: set<string> := {};
      assert registers[..0] == [];
      for i := 0 to |registers|
        invariant list == ByRegion(registers[..i])
        invariant forall region :: region in seen <==> Find(list, region).Some?
      {
        assert registers[..i + 1][..i] == registers[..i];
        var r := registers[i];
        if Usable(r) && r.region !in seen {
          forall region {
            FindAppend(list, r, region);
          }
          seen := seen + {r.region};
          list := list + [r];
        }
      }
      assert registers[..|registers|] == registers;
    }

    /** Rows whose restore fails (`stuck`) are reported, not retried, and do not undo the others. */
    method RollbackFromBackup(backup: seq<Saved>, stuck: set<string>) returns (restored: nat)
      modifies this
      ensures stores == RestoreAll(old(stores), backup, stuck)
      ensures restored <= |backup|
      ensures restored == |backup| <==> forall i :: 0 <= i < |backup| ==> backup[i].code !in stuck
    {
      restored := 0;
      assert backup[..0] == [];
      for i := 0 to |backup|
        invariant stores == RestoreAll(old(stores), backup[..i], stuck)
        invariant restored <= i && (restored == i <==> forall j :: 0 <= j < i ==> backup[j].code !in stuck)
      {
        assert backup[..i + 1][..i] == backup[..i];
        if backup[i].code !in stuck {
          stores := Restore(stores, backup[i]);
          restored := restored + 1;
        }
      }
      assert backup[..|backup|] == backup;
    }

    /** The transaction body up to the commit: the rows it would leave, or the error that aborts it. */
    static method Update(stores: Stores, codes: seq<string>, list: seq<Register>, fault: Fault)
      returns (work: Stores, updated: nat, skipped: nat, errors: seq<Error>, aborted: Option<Error>)
      requires Selects(codes, stores)
      ensures aborted.None? <==>
        AllFillable(stores, codes, list) && fault != AtCount && fault != AtCommit
        && !(fault.AtUpdate? && fault.index < |codes|)
      ensures aborted.None? ==>
        work == Patch(stores, codes, list) && updated == |codes| && skipped == 0 && errors == []
      ensures !(fault.AtUpdate? && fault.index < |codes|) ==>
        updated == CountGiven(stores, codes, list) && skipped == |codes| - updated
    {
      hide Find, Fillable, AllFillable, Patch, Change;
      work, updated, skipped, errors, aborted := stores, 0, 0, [], None;
      var i := 0;
      NothingPatched(stores, codes, list);
      while i < |codes|
        invariant i <= |codes|
        invariant work == Patch(stores, codes[..i], list)
        invariant fault.AtUpdate? ==> i <= fault.index
        invariant updated + skipped == i && updated == CountGiven(stores, codes[..i], list)
        invariant skipped == 0 ==> errors == []
      {
        var code := codes[i];
        assert code in codes;
        var s := stores[code];
        NotYetPatched(stores, codes, i, list);
        PatchSnoc(stores, codes, i, list);
        assert codes[..i + 1][..i] == codes[..i];
        ChangesExactlyWhen(s, list);
        if fault == AtUpdate(i) {
          aborted := Some(Database);
          return;
        }
        if s.region.None? || s.region.value == "" {
          errors := errors + [NoRegion(code)];
          skipped := skipped + 1;
        } else if Find(list, s.region.value).None? {
          errors := errors + [NoRegister(s.region.value)];
          skipped := skipped + 1;
        } else if Change(s, list).Some? {
          work := work[code := Change(s, list).value];
          updated := updated + 1;
        } else {
          skipped := skipped + 1;
        }
        i := i + 1;
      }
      assert codes[..|codes|] == codes;
      FillableAreGiven(stores, codes, list);
      PatchCompletesExactlyWhenFillable(stores, codes, list);
      if fault == AtCount {
        aborted := Some(Database);
        return;
      }
      if exists c :: c in work && Needs(work[c]) {
        aborted := Some(StillMissing);
        return;
      }
      if fault == AtCommit {
        aborted := Some(Database);
      }
    }

    /** Backup, transaction and, when either it or a later step fails, rollback. */
    method RunLive(list: seq<Register>, codes: seq<string>, autoRollback: bool, fault: Fault, stuck: set<string>)
      returns (report: Report)
      requires Selects(codes, stores)
      modifies this
      ensures autoRollback && stuck == {} ==> AllActiveHaveBoth(stores) || stores == old(stores)
      ensures report.errors == [] ==>
        && AllActiveHaveBoth(stores) && stores == Patch(old(stores), codes, list)
        && report == Report(|codes|, |codes|, 0, [], false)
      ensures fault == NoFault ==>
        && (report.errors == [] <==> AllFillable(old(stores), codes, list))
        && report.updated == CountGiven(old(stores), codes, list) && report.skipped == |codes| - report.updated
      ensures stores.Keys == old(stores).Keys
      ensures forall c :: c in stores && c !in codes ==> stores[c] == old(stores)[c]
    {
      hide CountGiven, AllFillable, RestoreAll;
      if fault == AtBackup {
        return Report(0, 0, 0, [Database], false);
      }
      var backup := Backup(stores, codes);
      var work, updated, skipped, errors, aborted := Update(stores, codes, list, fault);
      if aborted.None? {
        PatchCompletesExactlyWhenFillable(stores, codes, list);
        RestoringUndoes(stores, work, codes, stuck);
        stores := work;
        if fault != AtAlerts {
          return Report(|codes|, updated, skipped, errors, false);
        }
      } else {
        NothingToUndo(stores, codes, stuck);
      }
      if autoRollback {
        var _ := RollbackFromBackup(backup, stuck);
        errors := errors + [RolledBack];
      }
      report := Report(0, updated, skipped, errors + [aborted.GetOr(Database)], false);
    }

    /**
     The whole operation. `fault` is where the database fails and `stuck` the rows a rollback cannot restore.

     A live run that rolls back without a stuck row either leaves every active store with both ids or every store as
     it was on entry, also when it fails after the commit; a run that reports no error did the former and counted
     every selected store as updated. A dry run changes nothing.
     */
    method PopulateAtomic(
      registers: seq<Register>, codes: seq<string>, dryRun: bool, autoRollback: bool, fault: Fault, stuck: set<string>)
      returns (report: Report)
      requires Selects(codes, stores)
      modifies this
      ensures !dryRun && autoRollback && stuck == {} ==> AllActiveHaveBoth(stores) || stores == old(stores)
      ensures !dryRun && report.errors == [] ==>
        && AllActiveHaveBoth(stores) && stores == Patch(old(stores), codes, ByRegion(registers))
        && (NewestFirst(registers) ==> FilledIn(old(stores), stores, registers))
        && report == Report(|codes|, |codes|, 0, [], false)
      ensures !dryRun && fault == NoFault ==>
        (report.errors == [] <==>
           ByRegion(registers) != [] && AllFillable(old(stores), codes, ByRegion(registers)))
      ensures !dryRun && fault == NoFault && ByRegion(registers) != [] ==>
        && report.updated == CountGiven(old(stores), codes, ByRegion(registers))
        && report.skipped == |codes| - report.updated
      ensures dryRun ==> stores == old(stores)
      ensures dryRun && fault == NoFault && ByRegion(registers) != [] ==>
        && report == DryReport(stores, codes, ByRegion(registers))
        && report.totalStores == |codes| && report.updated + report.skipped == |codes|
        && report.errors == [] && report.dryRun
      ensures stores.Keys == old(stores).Keys
      ensures forall c :: c in stores && c !in codes ==> stores[c] == old(stores)[c]
    {
      report := Report(0, 0, 0, [Database], false);
      if fault == AtRegisters {
        return;
      }
      var list := CollectByRegion(registers);
      if |list| == 0 {
        return report.(errors := [NoRegisterData]);
      }
      if fault == AtStores {
        return;
      }
      if |codes| == 0 {
        assert Patch(stores, codes, list) == stores;
        NothingToFill(stores, registers);
        return Report(0, 0, 0, [], dryRun);
      }
      if dryRun {
        CountIsFullExactlyWhen(stores, codes, list);
        return DryReport(stores, codes, list);
      }
      report := RunLive(list, codes, autoRollback, fault, stuck);
      if report.errors == [] && NewestFirst(registers) {
        PatchCompletesExactlyWhenFillable(old(stores), codes, list);
        PatchFillsIn(old(stores), codes, registers);
      }
    }
  }
}
