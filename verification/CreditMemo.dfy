/**
 Posting refunds to Oracle as credit memos. What keeps a refund from being posted twice is the audit row under the key
 of its order, which is written last: after the memo exists and after the refund row has been updated.
 */
module CreditMemo {
  import opened Wrappers
  import opened Idempotency

  datatype SyncStatus =
    | Pending
    | Validated
    | Processing
    | Synced
    | Failed
    | Skipped
    | QueuedForRetry
    | NegativeInventoryHold

  datatype Refund = Refund(orderId: string, branchCode: Option<string>, status: SyncStatus, memoNumber: Option<string>)

  /** A credit memo as Oracle holds it. */
  datatype Memo = Memo(orderId: string, number: string)

  /** The tables, Oracle's memos, and the orders of the memos that no audit row was written for. */
  datatype State = State(
    refunds: map<string, Refund>,
    audit: map<string, AuditStatus>,
    memos: seq<Memo>,
    unrecorded: seq<string>)

  /** A write to the database succeeds, or throws; one that throws may still have taken effect. */
  datatype Write = Done | Throws(applied: bool)
  {
    predicate TakesEffect() {
      Done? || applied
    }
  }

  /** Oracle returns the number of the memo, or the call throws; then it may still have made one. */
  datatype Creation = Returned(number: string) | Lost(made: Option<string>)
  {
    predicate Makes() {
      Returned? || made.Some?
    }

    function Number(): string
      requires Makes()
    {
      if Returned? then number else made.value
    }
  }

  /**
   How one push fares outside the service: whether the refund can be read, whether everything up to the duplicate
   check and from there to the create goes through, and what becomes of the create and of each write it may come to.
   */
  datatype World = World(
    readable: bool,
    queueBranch: Option<string>,
    checked: bool,
    built: bool,
    creation: Creation,
    rowWrite: Write,
    auditWrite: Write,
    failRowWrite: Write,
    failAuditWrite: Write)

  /** A push answers that the refund is synced or that it failed, or it throws. */
  datatype Result = PushSynced(number: Option<string>) | PushFailed | Thrown

  const OPERATION := "CREATE_CREDIT_MEMO"

  function PostedKey(orderId: string): string {
    Key(orderId, OPERATION, "")
  }

  function FailedKey(refundId: string): string {
    Key(refundId, OPERATION, "failed")
  }

  lemma PostedKeysDiffer(a: string, b: string)
    requires PostedKey(a) == PostedKey(b)
    ensures a == b
  {
    KeysDiffer(a, b, OPERATION, "");
  }

  lemma PostedIsNeverFailed(orderId: string, refundId: string)
    ensures PostedKey(orderId) != FailedKey(refundId)
  {
    var p, f := PostedKey(orderId), FailedKey(refundId);
    assert p[|p| - 1] == ':';
    assert f[|f| - 1] == 'd';
  }

  function BranchOf(r: Refund, w: World): string {
    if r.branchCode.Some? then r.branchCode.value else w.queueBranch.GetOr("")
  }

  predicate IsPosted(audit: map<string, AuditStatus>, orderId: string) {
    var key := PostedKey(orderId);
    key in audit && audit[key] in {AuditStatus.Success, AuditStatus.Duplicate}
  }

  function UpdateRow(s: State, id: string, r: Refund, write: Write): State {
    if write.TakesEffect() then s.(refunds := s.refunds[id := r]) else s
  }

  function UpdateAudit(s: State, key: string, status: AuditStatus, write: Write): State {
    if write.TakesEffect() then s.(audit := s.audit[key := status]) else s
  }

  /** The audit row of a failure is written at best; the refund row must be, or the push throws. */
  function MarkFailed(s: State, id: string, w: World): (State, Result)
    requires id in s.refunds
  {
    var marked := UpdateRow(s, id, s.refunds[id].(status := SyncStatus.Failed), w.failRowWrite);
    if w.failRowWrite.Throws? then (marked, Thrown)
    else (UpdateAudit(marked, FailedKey(id), AuditStatus.Failed, w.failAuditWrite), PushFailed)
  }

  /** The push gets as far as asking Oracle for a memo. */
  predicate AsksForMemo(s: State, id: string, w: World) {
    && w.readable && id in s.refunds
    && BranchOf(s.refunds[id], w) != "" && w.checked
    && !IsPosted(s.audit, s.refunds[id].orderId)
    && w.built
  }

  predicate RecordsMemo(w: World) {
    w.creation.Returned? && w.rowWrite.Done? && w.auditWrite.TakesEffect()
  }

  function Created(s: State, id: string, w: World): State
    requires id in s.refunds && w.creation.Makes()
  {
    var o := s.refunds[id].orderId;
    s.(memos := s.memos + [Memo(o, w.creation.Number())],
       unrecorded := if RecordsMemo(w) then s.unrecorded else s.unrecorded + [o])
  }

  /** From the create on. */
  function CreateMemo(s: State, id: string, w: World): (State, Result)
    requires id in s.refunds
  {
    if w.creation.Lost? then MarkFailed(if w.creation.Makes() then Created(s, id, w) else s, id, w)
    else
      var r, number := s.refunds[id], Some(w.creation.number);
      var updated := UpdateRow(Created(s, id, w), id, r.(status := Synced, memoNumber := number), w.rowWrite);
      if w.rowWrite.Throws? then MarkFailed(updated, id, w)
      else
        var recorded := UpdateAudit(updated, PostedKey(r.orderId), AuditStatus.Success, w.auditWrite);
        if w.auditWrite.Throws? then MarkFailed(recorded, id, w) else (recorded, PushSynced(number))
  }

  function Push(s: State, id: string, w: World): (State, Result) {
    if !w.readable || id !in s.refunds then (s, Thrown)
    else
      var r := s.refunds[id];
      if BranchOf(r, w) == "" || !w.checked then MarkFailed(s, id, w)
      else if IsPosted(s.audit, r.orderId) then
        var updated := UpdateRow(s, id, r.(status := Synced), w.rowWrite);
        if w.rowWrite.Throws? then MarkFailed(updated, id, w) else (updated, PushSynced(None))
      else if !w.built then MarkFailed(s, id, w)
      else CreateMemo(s, id, w)
  }

  // ----- runs

  datatype Call = Call(id: string, w: World)

  function PushAll(s: State, calls: seq<Call>): State {
    if |calls| == 0 then s
    else
      var last := calls[|calls| - 1];
      Push(PushAll(s, calls[..|calls| - 1]), last.id, last.w).0
  }

  /** What the `i`-th push is answered. */
  function AnswerTo(s: State, calls: seq<Call>, i: nat): Result
    requires i < |calls|
  {
    Push(PushAll(s, calls[..i]), calls[i].id, calls[i].w).1
  }

  predicate ThrowsAt(s: State, calls: seq<Call>, i: nat)
    requires i < |calls|
  {
    AnswerTo(s, calls, i).Thrown?
  }

  /** How many refunds of a batch are pushed: up to and including the first push that throws. */
  function Reached(s: State, calls: seq<Call>): (n: nat)
    ensures n <= |calls|
  {
    if |calls| == 0 then 0
    else
      var before := calls[..|calls| - 1];
      var n := Reached(s, before);
      if n < |before| || (n > 0 && ThrowsAt(s, before, n - 1)) then n else |calls|
  }

  /** One call: a single push, or a batch of refunds that were pending when the batch was read. */
  datatype Op = PushOne(call: Call) | PushBatch(calls: seq<Call>)

  /** The pushes a run comes to. */
  function Pushes(s: State, ops: seq<Op>): seq<Call> {
    if |ops| == 0 then []
    else
      var before := Pushes(s, ops[..|ops| - 1]);
      match ops[|ops| - 1]
      case PushOne(call) => before + [call]
      case PushBatch(calls) => before + calls[..Reached(PushAll(s, before), calls)]
  }

  function Run(s: State, ops: seq<Op>): State {
    PushAll(s, Pushes(s, ops))
  }

  lemma {:induction false} PushesInTwo(s: State, a: seq<Call>, b: seq<Call>)
    ensures PushAll(s, a + b) == PushAll(PushAll(s, a), b)
    decreases |b|
  {
    hide Push;
    if |b| == 0 {
      assert a + b == a;
    } else {
      assert (a + b)[..|a + b| - 1] == a + b[..|b| - 1];
      PushesInTwo(s, a, b[..|b| - 1]);
    }
  }

  /** A run is its calls one after the other: single pushes, and batches as far as they get. */
  lemma RunGoesOn(s: State, ops: seq<Op>, op: Op)
    ensures Run(s, []) == s
    ensures
      match op
      case PushOne(call) => Run(s, ops + [op]) == Push(Run(s, ops), call.id, call.w).0
      case PushBatch(calls) => Run(s, ops + [op]) == PushAll(Run(s, ops), calls[..Reached(Run(s, ops), calls)])
  {
    hide Push, Reached;
    assert (ops + [op])[..|ops|] == ops;
    var before := Pushes(s, ops);
    match op
    case PushOne(call) =>
      assert (before + [call])[..|before|] == before;
    case PushBatch(calls) =>
      PushesInTwo(s, before, calls[..Reached(PushAll(s, before), calls)]);
  }

  // ----- every memo is accounted for

  function MemosFor(memos: seq<Memo>, orderId: string): nat {
    if |memos| == 0 then 0
    else MemosFor(memos[..|memos| - 1], orderId) + if memos[|memos| - 1].orderId == orderId then 1 else 0
  }

  function Occurrences(orders: seq<string>, orderId: string): nat {
    if |orders| == 0 then 0
    else Occurrences(orders[..|orders| - 1], orderId) + if orders[|orders| - 1] == orderId then 1 else 0
  }

  /** Every memo of an order is either the one its audit row stands for or one that went unrecorded. */
  ghost predicate AccountedFor(s: State, o: string) {
    MemosFor(s.memos, o) == Occurrences(s.unrecorded, o) + if IsPosted(s.audit, o) then 1 else 0
  }

  lemma PostingOnlyAddsItsOrder(audit: map<string, AuditStatus>, orderId: string, o: string)
    ensures IsPosted(audit[PostedKey(orderId) := AuditStatus.Success], o) <==> o == orderId || IsPosted(audit, o)
  {
    if PostedKey(o) == PostedKey(orderId) {
      PostedKeysDiffer(o, orderId);
    }
  }

  lemma FailingPostsNothing(audit: map<string, AuditStatus>, refundId: string, o: string)
    ensures IsPosted(audit[FailedKey(refundId) := AuditStatus.Failed], o) <==> IsPosted(audit, o)
  {
    PostedIsNeverFailed(o, refundId);
  }

  /** Marking a refund as failed touches no memo and no posted order. */
  lemma MarkFailedPostsNothing(s: State, id: string, w: World, o: string)
    requires id in s.refunds
    ensures
      var t := MarkFailed(s, id, w).0;
      t.memos == s.memos && t.unrecorded == s.unrecorded && (IsPosted(t.audit, o) <==> IsPosted(s.audit, o))
  {
    hide IsPosted, FailedKey;
    FailingPostsNothing(s.audit, id, o);
  }

  lemma CountOneMore(s: State, id: string, w: World, o: string)
    requires id in s.refunds && w.creation.Makes()
    ensures
      var t, mine := Created(s, id, w), if s.refunds[id].orderId == o then 1 else 0;
      && MemosFor(t.memos, o) == MemosFor(s.memos, o) + mine
      && Occurrences(t.unrecorded, o) == Occurrences(s.unrecorded, o) + if RecordsMemo(w) then 0 else mine
  {
    var order := s.refunds[id].orderId;
    assert (s.memos + [Memo(order, w.creation.Number())])[..|s.memos|] == s.memos;
    assert (s.unrecorded + [order])[..|s.unrecorded|] == s.unrecorded;
  }

  /** What a push does to the memos, the unrecorded ones and the posted orders. */
  lemma PushCounts(s: State, id: string, w: World, o: string)
    ensures
      var t := Push(s, id, w).0;
      if AsksForMemo(s, id, w) && w.creation.Makes() then
        var mine := if s.refunds[id].orderId == o then 1 else 0;
        && MemosFor(t.memos, o) == MemosFor(s.memos, o) + mine
        && Occurrences(t.unrecorded, o) == Occurrences(s.unrecorded, o) + (if RecordsMemo(w) then 0 else mine)
        && (IsPosted(t.audit, o) <==> IsPosted(s.audit, o) || (RecordsMemo(w) && s.refunds[id].orderId == o))
      else
        t.memos == s.memos && t.unrecorded == s.unrecorded && (IsPosted(t.audit, o) <==> IsPosted(s.audit, o))
  {
    hide IsPosted, MemosFor, Occurrences, PostedKey, FailedKey, BranchOf;
    if id in s.refunds && w.creation.Makes() {
      CountOneMore(s, id, w, o);
    }
    if id in s.refunds {
      PostingOnlyAddsItsOrder(s.audit, s.refunds[id].orderId, o);
      forall t: State | id in t.refunds
        ensures
          var u := MarkFailed(t, id, w).0;
          u.memos == t.memos && u.unrecorded == t.unrecorded && (IsPosted(u.audit, o) <==> IsPosted(t.audit, o))
      {
        MarkFailedPostsNothing(t, id, w, o);
      }
    }
  }

  lemma PushAccountsFor(s: State, id: string, w: World, o: string)
    requires AccountedFor(s, o)
    ensures AccountedFor(Push(s, id, w).0, o)
  {
    hide Push;
    PushCounts(s, id, w, o);
  }

  lemma {:induction false} PushesAccountFor(s: State, calls: seq<Call>, o: string)
    requires AccountedFor(s, o)
    ensures AccountedFor(PushAll(s, calls), o)
  {
    if |calls| == 0 {
    } else {
      var before, last := calls[..|calls| - 1], calls[|calls| - 1];
      PushesAccountFor(s, before, o);
      PushAccountsFor(PushAll(s, before), last.id, last.w, o);
    }
  }

  /**
   Over every run, whatever throws and whether or not what threw took effect: an order has as many memos as went
   unrecorded, and one more if it is posted.
   */
  lemma EveryMemoIsAccountedFor(s: State, ops: seq<Op>, o: string)
    requires AccountedFor(s, o)
    ensures AccountedFor(Run(s, ops), o)
  {
    PushesAccountFor(s, Pushes(s, ops), o);
  }

  /** A push makes a further memo of its order exactly if an earlier one went unrecorded and the order is not posted. */
  lemma SecondMemoExactlyWhen(s: State, id: string, w: World)
    requires id in s.refunds && AccountedFor(s, s.refunds[id].orderId)
    requires AsksForMemo(s, id, w) && w.creation.Makes()
    ensures MemosFor(Push(s, id, w).0.memos, s.refunds[id].orderId) > 1 <==>
      Occurrences(s.unrecorded, s.refunds[id].orderId) > 0
  {
    hide Push;
    PushCounts(s, id, w, s.refunds[id].orderId);
  }

  // ----- rows against audit rows

  ghost predicate SyncedAreRecorded(s: State) {
    forall id :: id in s.refunds && s.refunds[id].status == Synced ==> IsPosted(s.audit, s.refunds[id].orderId)
  }

  /**
   The push leaves its refund synced with no audit row: the row is updated after the create, the audit row is not
   written, and marking the refund as failed does not reach the table either.
   */
  predicate Strands(s: State, id: string, w: World) {
    && AsksForMemo(s, id, w) && w.creation.Returned?
    && w.rowWrite.TakesEffect()
    && !RecordsMemo(w)
    && !w.failRowWrite.TakesEffect()
  }

  /** `t` differs from `s` in no refund but this one, and there in neither order nor branch. */
  ghost predicate OnlyItsRow(s: State, id: string, t: State) {
    if id !in s.refunds then t.refunds == s.refunds
    else
      && id in t.refunds && t.refunds == s.refunds[id := t.refunds[id]]
      && t.refunds[id].orderId == s.refunds[id].orderId
      && t.refunds[id].branchCode == s.refunds[id].branchCode
  }

  lemma MarkFailedTouchesItsRow(s: State, id: string, t: State, w: World)
    requires id in s.refunds && id in t.refunds && OnlyItsRow(s, id, t)
    ensures OnlyItsRow(s, id, MarkFailed(t, id, w).0)
  {
    hide FailedKey;
  }

  lemma UpdatesTouchTheirRow(s: State, id: string, r: Refund, key: string, status: AuditStatus, w: Write, v: Write)
    requires id in s.refunds && r.orderId == s.refunds[id].orderId && r.branchCode == s.refunds[id].branchCode
    ensures OnlyItsRow(s, id, s)
    ensures OnlyItsRow(s, id, UpdateRow(s, id, r, w))
    ensures OnlyItsRow(s, id, UpdateAudit(UpdateRow(s, id, r, w), key, status, v))
  {
  }

  lemma CreateTouchesItsRow(s: State, id: string, w: World)
    requires id in s.refunds
    ensures OnlyItsRow(s, id, CreateMemo(s, id, w).0)
  {
    hide MarkFailed, PostedKey, UpdateRow, UpdateAudit, OnlyItsRow;
    var made := if w.creation.Makes() then Created(s, id, w) else s;
    MadeTouchesNothing(s, id, w);
    if w.creation.Lost? {
      MarkFailedTouchesItsRow(s, id, made, w);
    } else {
      var key := PostedKey(s.refunds[id].orderId);
      var r := s.refunds[id].(status := Synced, memoNumber := Some(w.creation.number));
      UpdatesTouchTheirRow(made, id, r, key, AuditStatus.Success, w.rowWrite, w.auditWrite);
      var updated := UpdateRow(made, id, r, w.rowWrite);
      var recorded := UpdateAudit(updated, key, AuditStatus.Success, w.auditWrite);
      SameRefunds(s, made, id, updated);
      SameRefunds(s, made, id, recorded);
      if w.rowWrite.Throws? {
        MarkFailedTouchesItsRow(s, id, updated, w);
      } else if w.auditWrite.Throws? {
        MarkFailedTouchesItsRow(s, id, recorded, w);
      }
    }
  }

  lemma MadeTouchesNothing(s: State, id: string, w: World)
    requires id in s.refunds
    ensures w.creation.Makes() ==> Created(s, id, w).refunds == s.refunds
    ensures OnlyItsRow(s, id, s)
    ensures w.creation.Makes() ==> OnlyItsRow(s, id, Created(s, id, w))
  {
  }

  lemma SameRefunds(s: State, made: State, id: string, t: State)
    requires id in s.refunds && made.refunds == s.refunds && OnlyItsRow(made, id, t)
    ensures id in t.refunds && OnlyItsRow(s, id, t)
  {
  }

  lemma PushTouchesItsRow(s: State, id: string, w: World)
    ensures OnlyItsRow(s, id, Push(s, id, w).0)
  {
    hide IsPosted, MarkFailed, CreateMemo, UpdateRow, OnlyItsRow;
    if id in s.refunds {
      var r := s.refunds[id].(status := Synced);
      CreateTouchesItsRow(s, id, w);
      UpdatesTouchTheirRow(s, id, r, "", AuditStatus.Success, w.rowWrite, Done);
      SameRefunds(s, s, id, UpdateRow(s, id, r, w.rowWrite));
      MarkFailedTouchesItsRow(s, id, s, w);
      MarkFailedTouchesItsRow(s, id, UpdateRow(s, id, r, w.rowWrite), w);
    } else {
      NoRowNoTouch(s, id);
    }
  }

  lemma NoRowNoTouch(s: State, id: string)
    requires id !in s.refunds
    ensures OnlyItsRow(s, id, s)
  {
  }

  /** The status a failed refund ends with. */
  lemma MarkFailedStatus(s: State, id: string, w: World)
    requires id in s.refunds
    ensures
      var t := MarkFailed(s, id, w).0;
      id in t.refunds
      && t.refunds[id].status == if w.failRowWrite.TakesEffect() then SyncStatus.Failed else s.refunds[id].status
  {
    hide FailedKey;
  }

  /** From the create on, the refund ends synced exactly if it is recorded, stranded, or was synced and left alone. */
  lemma CreateStatus(s: State, id: string, w: World)
    requires id in s.refunds
    ensures
      var t := CreateMemo(s, id, w).0;
      var written := w.creation.Returned? && w.rowWrite.TakesEffect();
      var throws := w.creation.Lost? || w.rowWrite.Throws? || w.auditWrite.Throws?;
      id in t.refunds
      && t.refunds[id].status ==
           if throws && w.failRowWrite.TakesEffect() then SyncStatus.Failed
           else if written then Synced else s.refunds[id].status
  {
    hide PostedKey, MarkFailed, RecordsMemo;
    var made := if w.creation.Makes() then Created(s, id, w) else s;
    MarkFailedStatus(made, id, w);
    if w.creation.Returned? {
      var r := s.refunds[id].(status := Synced, memoNumber := Some(w.creation.number));
      var updated := UpdateRow(made, id, r, w.rowWrite);
      MarkFailedStatus(updated, id, w);
      MarkFailedStatus(UpdateAudit(updated, PostedKey(r.orderId), AuditStatus.Success, w.auditWrite), id, w);
    }
  }

  lemma OwnRowIsRecorded(s: State, id: string, w: World)
    requires id in s.refunds && (s.refunds[id].status == Synced ==> IsPosted(s.audit, s.refunds[id].orderId))
    ensures
      var t := Push(s, id, w).0;
      id in t.refunds
      && ((t.refunds[id].status == Synced ==> IsPosted(t.audit, s.refunds[id].orderId)) <==> !Strands(s, id, w))
  {
    PushCounts(s, id, w, s.refunds[id].orderId);
    hide IsPosted, MarkFailed, CreateMemo, MemosFor, Occurrences;
    CreateStatus(s, id, w);
    MarkFailedStatus(s, id, w);
    var updated := UpdateRow(s, id, s.refunds[id].(status := Synced), w.rowWrite);
    MarkFailedStatus(updated, id, w);
  }

  /** One push keeps every synced refund recorded exactly if it does not strand its own. */
  lemma PushKeepsRecordedExactlyWhen(s: State, id: string, w: World)
    requires SyncedAreRecorded(s)
    ensures SyncedAreRecorded(Push(s, id, w).0) <==> !Strands(s, id, w)
  {
    hide Push, IsPosted, Strands;
    var t := Push(s, id, w).0;
    PushTouchesItsRow(s, id, w);
    forall i | i in s.refunds
      ensures IsPosted(s.audit, s.refunds[i].orderId) ==> IsPosted(t.audit, s.refunds[i].orderId)
    {
      PushCounts(s, id, w, s.refunds[i].orderId);
    }
    if id in s.refunds {
      OwnRowIsRecorded(s, id, w);
    } else {
      StrandsOnlyItsRefund(s, id, w);
    }
  }

  lemma StrandsOnlyItsRefund(s: State, id: string, w: World)
    ensures Strands(s, id, w) ==> id in s.refunds
  {
  }

  ghost predicate AlwaysRecorded(s: State, calls: seq<Call>) {
    forall i :: 0 <= i <= |calls| ==> SyncedAreRecorded(PushAll(s, calls[..i]))
  }

  ghost predicate NoneStranded(s: State, calls: seq<Call>) {
    forall i :: 0 <= i < |calls| ==> !Strands(PushAll(s, calls[..i]), calls[i].id, calls[i].w)
  }

  lemma PrefixesOfCalls(s: State, calls: seq<Call>)
    requires |calls| > 0
    ensures
      var before := calls[..|calls| - 1];
      && (AlwaysRecorded(s, calls) <==> AlwaysRecorded(s, before) && SyncedAreRecorded(PushAll(s, calls)))
      && (NoneStranded(s, calls) <==>
            NoneStranded(s, before) && !Strands(PushAll(s, before), calls[|calls| - 1].id, calls[|calls| - 1].w))
  {
    hide SyncedAreRecorded, PushAll, Strands;
    var before := calls[..|calls| - 1];
    assert calls[..|calls|] == calls;
    assert forall i :: 0 <= i < |calls| ==> before[..i] == calls[..i];
    assert forall i :: 0 <= i < |before| ==> before[i] == calls[i];
  }

  lemma {:induction false} PushesKeepRecordedExactlyWhen(s: State, calls: seq<Call>)
    requires SyncedAreRecorded(s)
    ensures AlwaysRecorded(s, calls) <==> NoneStranded(s, calls)
  {
    hide SyncedAreRecorded, Strands, Push;
    if |calls| == 0 {
      assert calls[..0] == [];
    } else {
      var before, last := calls[..|calls| - 1], calls[|calls| - 1];
      PushesKeepRecordedExactlyWhen(s, before);
      PrefixesOfCalls(s, calls);
      if AlwaysRecorded(s, before) {
        assert before[..|before|] == before;
        PushKeepsRecordedExactlyWhen(PushAll(s, before), last.id, last.w);
      }
    }
  }

  /** Throughout a run every synced refund has the audit row of its order exactly if no push strands its refund. */
  lemma SyncedAreRecordedExactlyWhen(s: State, ops: seq<Op>)
    requires SyncedAreRecorded(s)
    ensures AlwaysRecorded(s, Pushes(s, ops)) <==> NoneStranded(s, Pushes(s, ops))
  {
    PushesKeepRecordedExactlyWhen(s, Pushes(s, ops));
  }

  // ----- at most one memo

  /** A create that throws made nothing, and no write after a successful create fails. */
  predicate Records(w: World) {
    if w.creation.Returned? then RecordsMemo(w) else !w.creation.Makes()
  }

  ghost predicate AllRecord(calls: seq<Call>) {
    forall i :: 0 <= i < |calls| ==> Records(calls[i].w)
  }

  predicate OpRecords(op: Op) {
    match op
    case PushOne(call) => Records(call.w)
    case PushBatch(calls) => forall i :: 0 <= i < |calls| ==> Records(calls[i].w)
  }

  lemma {:induction false} PushesRecord(s: State, ops: seq<Op>)
    requires forall i :: 0 <= i < |ops| ==> OpRecords(ops[i])
    ensures AllRecord(Pushes(s, ops))
  {
    if |ops| == 0 {
    } else {
      hide Records;
      PushesRecord(s, ops[..|ops| - 1]);
      assert OpRecords(ops[|ops| - 1]);
    }
  }

  lemma {:induction false} NothingGoesUnrecorded(s: State, calls: seq<Call>)
    requires AllRecord(calls)
    ensures PushAll(s, calls).unrecorded == s.unrecorded && NoneStranded(s, calls)
  {
    if |calls| == 0 {
    } else {
      hide Push, IsPosted;
      var before, last := calls[..|calls| - 1], calls[|calls| - 1];
      assert forall i :: 0 <= i < |before| ==> before[i] == calls[i];
      NothingGoesUnrecorded(s, before);
      PrefixesOfCalls(s, calls);
      assert Records(last.w);
      RecordingLeavesNothing(PushAll(s, before), last.id, last.w);
    }
  }

  lemma RecordingLeavesNothing(s: State, id: string, w: World)
    requires Records(w)
    ensures Push(s, id, w).0.unrecorded == s.unrecorded && !Strands(s, id, w)
  {
    hide IsPosted, PostedKey, FailedKey;
  }

  /**
   At most one memo per refund order, over any run of pushes and batches and across however many refund rows share
   the order; and no refund is synced unless its order has exactly one.
   */
  lemma AtMostOneMemo(s: State, ops: seq<Op>, orderId: string)
    requires s.unrecorded == [] && SyncedAreRecorded(s) && forall o :: AccountedFor(s, o)
    requires forall i :: 0 <= i < |ops| ==> OpRecords(ops[i])
    ensures MemosFor(Run(s, ops).memos, orderId) <= 1
    ensures forall id :: id in Run(s, ops).refunds ==>
      var r := Run(s, ops).refunds[id];
      r.status == Synced ==> IsPosted(Run(s, ops).audit, r.orderId) && MemosFor(Run(s, ops).memos, r.orderId) == 1
  {
    hide IsPosted, PushAll, MemosFor, OpRecords, Pushes;
    var calls := Pushes(s, ops);
    var t := Run(s, ops);
    PushesRecord(s, ops);
    NothingGoesUnrecorded(s, calls);
    PushesKeepRecordedExactlyWhen(s, calls);
    assert calls[..|calls|] == calls;
    assert SyncedAreRecorded(t);
    forall o
      ensures MemosFor(t.memos, o) == if IsPosted(t.audit, o) then 1 else 0
    {
      EveryMemoIsAccountedFor(s, ops, o);
    }
  }

  /** A memo that went unrecorded, and one more push that makes one: the order is posted again. */
  lemma AFailedRecordingPostsTwice(s: State, id: string, w: World, again: World)
    requires AsksForMemo(s, id, w) && w.creation.Makes() && !RecordsMemo(w)
    requires again.readable && again.checked && again.built && again.creation.Makes()
    requires BranchOf(s.refunds[id], again) != ""
    ensures
      var o := s.refunds[id].orderId;
      MemosFor(PushAll(s, [Call(id, w), Call(id, again)]).memos, o) == MemosFor(s.memos, o) + 2
  {
    hide IsPosted, MemosFor, Occurrences, Push;
    var o := s.refunds[id].orderId;
    var mid := Push(s, id, w).0;
    PushCounts(s, id, w, o);
    PushTouchesItsRow(s, id, w);
    PushCounts(mid, id, again, o);
    TwoPushes(s, Call(id, w), Call(id, again));
  }

  lemma TwoPushes(s: State, a: Call, b: Call)
    ensures PushAll(s, [a, b]) == Push(Push(s, a.id, a.w).0, b.id, b.w).0
  {
    hide Push;
    assert [a, b][..1] == [a] && [a][..0] == [];
    assert PushAll(s, [a]) == Push(PushAll(s, []), a.id, a.w).0;
  }

  // ----- what a push answers

  /** The refund names its branch, or leaves it to the sync queue, and that does. */
  predicate HasBranch(r: Refund, w: World) {
    match r.branchCode
    case Some(code) => |code| > 0
    case None => w.queueBranch.Some? && |w.queueBranch.value| > 0
  }

  /** The refund is read, has a branch, and nothing throws up to the duplicate check. */
  predicate GetsToTheCheck(s: State, id: string, w: World) {
    w.readable && id in s.refunds && HasBranch(s.refunds[id], w) && w.checked
  }

  /** Everything from the duplicate check on goes through. */
  predicate GoesThrough(s: State, id: string, w: World) {
    && GetsToTheCheck(s, id, w) && w.rowWrite.Done?
    && (IsPosted(s.audit, s.refunds[id].orderId) || (w.built && w.creation.Returned? && w.auditWrite.Done?))
  }

  /** When a push answers which: synced without a memo for a posted order, with the memo it made for any other. */
  lemma AnswersExactlyWhen(s: State, id: string, w: World)
    ensures
      var result := Push(s, id, w).1;
      && (result == PushSynced(None) <==> GoesThrough(s, id, w) && IsPosted(s.audit, s.refunds[id].orderId))
      && (forall n :: result == PushSynced(Some(n)) <==>
            && GoesThrough(s, id, w) && !IsPosted(s.audit, s.refunds[id].orderId)
            && w.creation == Returned(n))
      && (result == PushFailed <==>
            w.readable && id in s.refunds && !GoesThrough(s, id, w) && w.failRowWrite.Done?)
  {
    hide IsPosted, PostedKey, FailedKey;
  }

  /**
   What the answer says about the tables: a refund answered as synced is synced; if the answer names a memo, that is the
   order's new one and the number of the row, and otherwise no memo was made; nothing else has changed but the audit row
   of the order. A refund answered as failed has failed.
   */
  ghost predicate Tells(s: State, id: string, t: State, result: Result) {
    match result
    case PushSynced(number) =>
      && id in s.refunds && id in t.refunds && t.refunds.Keys == s.refunds.Keys
      && (forall i :: i in s.refunds && i != id ==> t.refunds[i] == s.refunds[i])
      && var was, now := s.refunds[id], t.refunds[id];
         && now.status == Synced && now.orderId == was.orderId && now.branchCode == was.branchCode
         && (match number
             case Some(n) => now.memoNumber == Some(n) && t.memos == s.memos + [Memo(was.orderId, n)]
             case None => now.memoNumber == was.memoNumber && t.memos == s.memos && t.audit == s.audit)
         && IsPosted(t.audit, was.orderId)
    case PushFailed => id in t.refunds && t.refunds[id].status == SyncStatus.Failed
    case Thrown => true
  }

  lemma PushTells(s: State, id: string, w: World)
    ensures Tells(s, id, Push(s, id, w).0, Push(s, id, w).1)
  {
    hide FailedKey;
    if id in s.refunds {
      PostingOnlyAddsItsOrder(s.audit, s.refunds[id].orderId, s.refunds[id].orderId);
    }
    hide PostedKey, IsPosted;
  }

  ghost predicate Waits(s: State, id: string) {
    id in s.refunds && s.refunds[id].status == Pending
  }

  /** No push makes a refund pending, and one that answers leaves its own refund no longer pending. */
  lemma PushSettles(s: State, id: string, w: World, other: string)
    ensures Waits(Push(s, id, w).0, other) ==> Waits(s, other)
    ensures !Push(s, id, w).1.Thrown? ==> !Waits(Push(s, id, w).0, id)
  {
    hide FailedKey, PostedKey, IsPosted;
  }

  lemma {:induction false} SettledStaysSettled(s: State, calls: seq<Call>, i: nat, id: string)
    requires i <= |calls| && !Waits(PushAll(s, calls[..i]), id)
    ensures !Waits(PushAll(s, calls), id)
    decreases |calls|
  {
    hide Push, Waits;
    if i == |calls| {
      assert calls[..i] == calls;
    } else {
      var before, last := calls[..|calls| - 1], calls[|calls| - 1];
      assert before[..i] == calls[..i];
      SettledStaysSettled(s, before, i, id);
      PushSettles(PushAll(s, before), last.id, last.w, id);
    }
  }

  /** Over every run: a refund whose push was answered, as synced or as failed, is not pending at the end. */
  lemma AnsweredIsNotPending(s: State, ops: seq<Op>, i: nat)
    requires i < |Pushes(s, ops)| && !ThrowsAt(s, Pushes(s, ops), i)
    ensures !Waits(Run(s, ops), Pushes(s, ops)[i].id)
  {
    hide Push, Waits, Pushes;
    var calls := Pushes(s, ops);
    var call := calls[i];
    assert calls[..i + 1][..i] == calls[..i];
    PushSettles(PushAll(s, calls[..i]), call.id, call.w, call.id);
    SettledStaysSettled(s, calls, i + 1, call.id);
  }

  // ----- the service

  class Service {
    var refunds: map<string, Refund>
    const audit: AuditLog
    var memos: seq<Memo>
    ghost var unrecorded: seq<string>

    ghost predicate Valid()
      reads this, audit
    {
      audit.Valid()
    }

    ghost function View(): State
      reads this, audit
    {
      State(refunds, Statuses(audit.rows), memos, unrecorded)
    }

    constructor (refunds: map<string, Refund>)
      requires forall id :: id in refunds ==> refunds[id].status != Synced
      ensures Valid() && fresh(audit)
      ensures this.refunds == refunds && SyncedAreRecorded(View()) && unrecorded == []
      ensures forall o :: AccountedFor(View(), o)
    {
      this.refunds := refunds;
      audit := new AuditLog();
      memos, unrecorded := [], [];
    }

    method UpdateRefund(id: string, r: Refund, write: Write)
      modifies this`refunds
      ensures View() == UpdateRow(old(View()), id, r, write)
    {
      if write.TakesEffect() {
        refunds := refunds[id := r];
      }
    }

    method Record(key: string, status: AuditStatus, write: Write)
      requires Valid()
      modifies audit
      ensures Valid() && View() == UpdateAudit(old(View()), key, status, write)
    {
      hide Statuses;
      if write.TakesEffect() {
        audit.RecordOperation(key, status);
      }
    }

    method Fail(id: string, w: World) returns (result: Result)
      requires Valid() && id in refunds
      modifies this, audit
      ensures Valid() && (View(), result) == MarkFailed(old(View()), id, w)
    {
      hide FailedKey, Statuses;
      UpdateRefund(id, refunds[id].(status := SyncStatus.Failed), w.failRowWrite);
      if w.failRowWrite.Throws? {
        return Thrown;
      }
      Record(FailedKey(id), AuditStatus.Failed, w.failAuditWrite);
      return PushFailed;
    }

    method Create(id: string, w: World) returns (result: Result)
      requires Valid() && id in refunds
      modifies this, audit
      ensures Valid() && (View(), result) == CreateMemo(old(View()), id, w)
    {
      hide PostedKey, Statuses, MarkFailed;
      var refund := refunds[id];
      if w.creation.Makes() {
        memos := memos + [Memo(refund.orderId, w.creation.Number())];
        if !RecordsMemo(w) {
          unrecorded := unrecorded + [refund.orderId];
        }
      }
      if w.creation.Lost? {
        result := Fail(id, w);
        return;
      }
      UpdateRefund(id, refund.(status := Synced, memoNumber := Some(w.creation.number)), w.rowWrite);
      if w.rowWrite.Throws? {
        result := Fail(id, w);
        return;
      }
      Record(PostedKey(refund.orderId), AuditStatus.Success, w.auditWrite);
      if w.auditWrite.Throws? {
        result := Fail(id, w);
        return;
      }
      return PushSynced(Some(w.creation.number));
    }

    method PushRefund(id: string, w: World) returns (result: Result)
      requires Valid()
      modifies this, audit
      ensures Valid() && (View(), result) == Push(old(View()), id, w)
      ensures Tells(old(View()), id, View(), result)
    {
      PushTells(View(), id, w);
      hide PostedKey, Statuses, MarkFailed, CreateMemo;
      if !w.readable || id !in refunds {
        return Thrown;
      }
      var refund := refunds[id];
      if BranchOf(refund, w) == "" || !w.checked {
        result := Fail(id, w);
        return;
      }
      var duplicate := audit.IsDuplicate(PostedKey(refund.orderId));
      if duplicate {
        UpdateRefund(id, refund.(status := Synced), w.rowWrite);
        if w.rowWrite.Throws? {
          result := Fail(id, w);
          return;
        }
        return PushSynced(None);
      }
      if !w.built {
        result := Fail(id, w);
        return;
      }
      result := Create(id, w);
    }

    /** Pushes the refunds that were pending when the batch was read, one after the other; one that throws ends it. */
    method ProcessPending(calls: seq<Call>) returns (results: Option<seq<Result>>)
      requires Valid()
      requires forall i :: 0 <= i < |calls| ==> calls[i].id in refunds && refunds[calls[i].id].status == Pending
      modifies this, audit
      ensures Valid() && View() == PushAll(old(View()), calls[..Reached(old(View()), calls)])
      ensures results.None? <==>
        exists i :: 0 <= i < |calls| && i + 1 == Reached(old(View()), calls) && ThrowsAt(old(View()), calls, i)
      ensures results.Some? ==> |results.value| == |calls| == Reached(old(View()), calls)
      ensures results.Some? ==> forall i :: 0 <= i < |calls| ==> results.value[i] == AnswerTo(old(View()), calls, i)
    {
      hide Push, View, Reached;
      var answers: seq<Result> := [];
      ghost var start := View();
      NoneReached(start, calls);
      for i := 0 to |calls|
        invariant Valid() && View() == PushAll(start, calls[..i])
        invariant Reached(start, calls[..i]) == i && |answers| == i
        invariant forall j :: 0 <= j < i ==> answers[j] == AnswerTo(start, calls, j)
        invariant i > 0 ==> !ThrowsAt(start, calls, i - 1)
      {
        ReachedOneMore(start, calls, i);
        assert calls[..i + 1][..i] == calls[..i];
        var r := PushRefund(calls[i].id, calls[i].w);
        if r.Thrown? {
          ReachedStops(start, calls, i);
          return None;
        }
        answers := answers + [r];
      }
      assert calls[..|calls|] == calls;
      return Some(answers);
    }
  }

  lemma NoneReached(s: State, calls: seq<Call>)
    ensures Reached(s, calls[..0]) == 0
  {
  }

  lemma ReachedOneMore(s: State, calls: seq<Call>, i: nat)
    requires i < |calls| && Reached(s, calls[..i]) == i && (i > 0 ==> !ThrowsAt(s, calls, i - 1))
    ensures Reached(s, calls[..i + 1]) == i + 1
  {
    hide Push;
    assert calls[..i + 1][..i] == calls[..i];
    if i > 0 {
      assert calls[..i][..i - 1] == calls[..i - 1];
    }
  }

  /** Once a push has thrown, the rest of the batch is not reached. */
  lemma {:induction false} ReachedStops(s: State, calls: seq<Call>, i: nat)
    requires i < |calls| && Reached(s, calls[..i + 1]) == i + 1 && ThrowsAt(s, calls, i)
    ensures Reached(s, calls) == i + 1
  {
    hide Push;
    if |calls| == i + 1 {
      assert calls[..i + 1] == calls;
    } else {
      var before := calls[..|calls| - 1];
      assert before[..i + 1] == calls[..i + 1] && before[..i] == calls[..i];
      ReachedStops(s, before, i);
    }
  }
}
