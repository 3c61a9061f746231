/** The dead-letter records: what a requeue may cost.

    A draft that is marked dead should always have its record, in the live or in the dead-letter directory. That holds
    as long as the operator starts a requeue only on a draft that is not in flight, and it can fail on every other
    one. */
module OutboxRecords {
  import opened Basics
  import opened Outbox

  ghost predicate EventInFlight(rows: map<Id, Row>, e: Id) {
    exists k :: k in rows && rows[k].draft.eventId == e && rows[k].status == InFlight
  }

  /** The guard an operator can check before a requeue. */
  ghost predicate Careful(w: World, a: Action) {
    a.OpRead? ==> !EventInFlight(w.rows, a.eventId)
  }

  ghost predicate CarefulRun(w: World, acts: seq<Action>)
    requires CanRun(w, acts)
    decreases |acts|
  {
    acts == [] || (Careful(w, acts[0]) && CarefulRun(Apply(w, acts[0]), acts[1..]))
  }

  predicate HasRecord(w: World, e: Id) {
    e in w.live || e in w.dead
  }

  ghost predicate NothingLost(w: World) {
    forall k :: k in w.rows && w.rows[k].status == DeadLetter ==> HasRecord(w, w.rows[k].draft.eventId)
  }

  // ---------------------------------------------------------------- the careful operator loses nothing

  /** What the files and the operator's place say about a row. */
  ghost predicate RowRecordOk(w: World, row: Row) {
    var e := row.draft.eventId;
    && (row.status == DeadLetter ==> HasRecord(w, e))
    && (row.status == Pending ==> e !in w.dead)
    && (!w.operator.Away? && w.operator.eventId == e ==>
          && (row.status == DeadLetter || row.status == Delivered)
          && (row.status == DeadLetter && !w.operator.Holding? ==> e in w.live))
  }

  ghost predicate EventKnown(rows: map<Id, Row>, e: Id) {
    exists k :: k in rows && rows[k].draft.eventId == e
  }

  ghost predicate RecordsOk(w: World) {
    && (forall k :: k in w.rows ==> RowRecordOk(w, w.rows[k]))
    && (w.sidecar.Buried? ==> w.sidecar.draft.eventId in w.dead)
    && (w.operator.Removed? ==> w.operator.eventId !in w.dead)
    && (w.operator.Holding? || w.operator.Restored? ==> w.operator.eventId in w.dead)
    && (!w.operator.Away? ==> EventKnown(w.rows, w.operator.eventId))
  }

  lemma SubmitKeepsRecords(w: World, d: Draft)
    requires Inv(w) && RecordsOk(w) && Enabled(w, Submit(d))
    ensures RecordsOk(Apply(w, Submit(d)))
  {
    var v := Apply(w, Submit(d));
    assert forall e :: e in w.dead ==> Belongs(w.rows, e, w.dead[e]);
    assert d.eventId !in w.dead;
    forall k | k in v.rows ensures RowRecordOk(v, v.rows[k]) {
      if k != d.draftId { assert RowRecordOk(w, w.rows[k]); }
    }
    if !w.operator.Away? {
      var k :| k in w.rows && w.rows[k].draft.eventId == w.operator.eventId;
      assert v.rows[k].draft.eventId == w.operator.eventId;
    }
  }

  /** A step that only adds live files. */
  lemma MoreFilesKeepRecords(w: World, v: World)
    requires RecordsOk(w) && v.rows == w.rows && v.dead == w.dead && w.live.Keys <= v.live.Keys
    requires v.operator == w.operator
    requires v.sidecar.Buried? ==> v.sidecar == w.sidecar
    ensures RecordsOk(v)
  {
    forall k | k in v.rows ensures RowRecordOk(v, v.rows[k]) {
      assert RowRecordOk(w, w.rows[k]);
    }
  }

  /** A step that changes rows in flight, or away from them, and no file. */
  lemma NewStatusKeepsRecords(w: World, v: World)
    requires RecordsOk(w) && RowsKept(w.rows, v.rows) && v.rows.Keys == w.rows.Keys && v.dead == w.dead
    requires v.live == w.live && v.operator == w.operator
    requires v.sidecar.Draining? || v.sidecar.Settled?
    requires forall k :: k in v.rows && v.rows[k] != w.rows[k] ==>
      && (w.rows[k].status == Pending || w.rows[k].status == InFlight)
      && v.rows[k].status != Pending && (v.rows[k].status == DeadLetter ==> v.rows[k].draft.eventId in w.dead)
    ensures RecordsOk(v)
  {
    forall k | k in v.rows ensures RowRecordOk(v, v.rows[k]) {
      assert RowRecordOk(w, w.rows[k]) && RowKept(w.rows[k], v.rows, k);
    }
    if !w.operator.Away? {
      var k :| k in w.rows && w.rows[k].draft.eventId == w.operator.eventId;
      assert RowKept(w.rows[k], v.rows, k);
    }
  }

  /** No operator holds the draft being pushed. */
  lemma PushedIsNotHeld(w: World, d: Draft)
    requires RecordsOk(w) && InFlightRow(w.rows, d)
    ensures w.operator.Away? || w.operator.eventId != d.eventId
  {
    assert RowRecordOk(w, w.rows[d.draftId]);
  }

  lemma MoveKeepsRecords(w: World)
    requires Inv(w) && RecordsOk(w) && Enabled(w, Move)
    ensures RecordsOk(Apply(w, Move))
  {
    var v := Apply(w, Move);
    var d := w.sidecar.draft;
    PushedIsNotHeld(w, d);
    forall k | k in v.rows ensures RowRecordOk(v, v.rows[k]) {
      assert RowRecordOk(w, w.rows[k]);
      assert k != d.draftId ==> v.rows[k].draft.eventId != d.eventId;
    }
  }

  lemma UnlinkKeepsRecords(w: World)
    requires Inv(w) && RecordsOk(w) && Enabled(w, Unlink)
    ensures RecordsOk(Apply(w, Unlink))
  {
    var v := Apply(w, Unlink);
    forall k | k in v.rows ensures RowRecordOk(v, v.rows[k]) {
      assert RowRecordOk(w, w.rows[k]);
      assert w.rows[k].status == DeadLetter ==> v.rows[k].draft.eventId != w.sidecar.draft.eventId;
    }
  }

  lemma ClaimKeepsRecords(w: World, queue: seq<Draft>)
    requires Inv(w) && RecordsOk(w) && Enabled(w, Claim(queue))
    ensures RecordsOk(Apply(w, Claim(queue)))
  {
    StepKeepsRows(w, Claim(queue));
    assert Apply(w, Claim(queue)).rows == MarkInFlight(w.rows);
    NewStatusKeepsRecords(w, Apply(w, Claim(queue)));
  }

  lemma FinishKeepsRecords(w: World, a: Action)
    requires Inv(w) && RecordsOk(w) && Enabled(w, a) && (a.FinishDelivered? || a.FinishDead?)
    ensures RecordsOk(Apply(w, a))
  {
    hide ReceiverOk, FilesOk, IsClaim, IsNew, QueueOk;
    var v := Apply(w, a);
    var d := w.sidecar.draft;
    StepKeepsRows(w, a);
    assert v.rows == w.rows[d.draftId := v.rows[d.draftId]];
    if a.FinishDead? {
      assert d.eventId in v.dead;
    } else {
      assert v.rows[d.draftId].status == Delivered;
    }
    NewStatusKeepsRecords(w, v);
  }

  lemma SidecarKeepsRecords(w: World, a: Action)
    requires Inv(w) && RecordsOk(w) && Enabled(w, a) && IsSidecarStep(a)
    ensures RecordsOk(Apply(w, a))
  {
    hide Inv, RecordsOk, IsClaim, IsNew, MarkInFlight, Finish, Requeue;
    if a.Unlink? {
      UnlinkKeepsRecords(w);
    } else if a.Move? {
      MoveKeepsRecords(w);
    } else if a.Claim? {
      ClaimKeepsRecords(w, a.queue);
    } else if a.FinishDelivered? || a.FinishDead? {
      FinishKeepsRecords(w, a);
    } else {
      var v := Apply(w, a);
      assert v.rows == w.rows && v.dead == w.dead && w.live.Keys <= v.live.Keys;
      MoreFilesKeepRecords(w, v);
    }
  }

  /** The operator may start: the draft is dead or delivered, since no pending draft has a dead-letter file. */
  lemma ReadKeepsRecords(w: World, e: Id)
    requires Inv(w) && RecordsOk(w) && Enabled(w, OpRead(e)) && Careful(w, OpRead(e))
    ensures RecordsOk(Apply(w, OpRead(e)))
  {
    var v := Apply(w, OpRead(e));
    assert Belongs(w.rows, e, w.dead[e]);
    forall k | k in v.rows ensures RowRecordOk(v, v.rows[k]) {
      assert RowRecordOk(w, w.rows[k]);
    }
  }

  /** The requeue ends: the record is live, and the dead-letter file is gone. */
  lemma UpdateKeepsRecords(w: World)
    requires Inv(w) && RecordsOk(w) && Enabled(w, OpUpdate)
    ensures RecordsOk(Apply(w, OpUpdate))
  {
    var v := Apply(w, OpUpdate);
    forall k | k in v.rows ensures RowRecordOk(v, v.rows[k]) {
      assert RowRecordOk(w, w.rows[k]);
    }
  }

  lemma OpUnlinkKeepsRecords(w: World)
    requires Inv(w) && RecordsOk(w) && Enabled(w, OpUnlink)
    ensures RecordsOk(Apply(w, OpUnlink))
  {
    var v := Apply(w, OpUnlink);
    forall k | k in v.rows ensures RowRecordOk(v, v.rows[k]) {
      assert RowRecordOk(w, w.rows[k]);
    }
    if w.sidecar.Buried? { PushedIsNotHeld(w, w.sidecar.draft); }
  }

  lemma CarefulStepKeepsRecords(w: World, a: Action)
    requires Inv(w) && RecordsOk(w) && Enabled(w, a) && Careful(w, a)
    ensures RecordsOk(Apply(w, a))
  {
    match a
    case Submit(d) => SubmitKeepsRecords(w, d);
    case OpRead(e) => ReadKeepsRecords(w, e);
    case OpWrite =>
      var v := Apply(w, OpWrite);
      forall k | k in v.rows ensures RowRecordOk(v, v.rows[k]) { assert RowRecordOk(w, w.rows[k]); }
    case OpUnlink => OpUnlinkKeepsRecords(w);
    case OpUpdate => UpdateKeepsRecords(w);
    case OpStop =>
      var v := Apply(w, OpStop);
      forall k | k in v.rows ensures RowRecordOk(v, v.rows[k]) { assert RowRecordOk(w, w.rows[k]); }
    case _ => SidecarKeepsRecords(w, a);
  }

  lemma {:induction false} CarefulRunKeepsRecords(w: World, acts: seq<Action>)
    requires Inv(w) && RecordsOk(w) && CanRun(w, acts) && CarefulRun(w, acts)
    ensures Inv(Run(w, acts)) && RecordsOk(Run(w, acts))
    decreases |acts|
  {
    if acts != [] {
      StepKeepsInv(w, acts[0]);
      CarefulStepKeepsRecords(w, acts[0]);
      CarefulRunKeepsRecords(Apply(w, acts[0]), acts[1..]);
    }
  }

  /** No draft is lost: in every run with a careful operator, crashes included, a dead draft has its record. */
  lemma CarefulRunLosesNothing(acts: seq<Action>)
    requires CanRun(Init(), acts) && CarefulRun(Init(), acts)
    ensures NothingLost(Run(Init(), acts))
  {
    InitOk();
    CarefulRunKeepsRecords(Init(), acts);
    var w := Run(Init(), acts);
    assert forall k :: k in w.rows ==> RowRecordOk(w, w.rows[k]);
  }

  // ---------------------------------------------------------------- exactly then

  /** One state can be reached from another without a requeue being started. */
  ghost predicate Leads(w: World, v: World) {
    exists acts :: LeadsBy(w, acts, v)
  }

  ghost predicate LeadsBy(w: World, acts: seq<Action>, v: World) {
    CanRun(w, acts) && Run(w, acts) == v && forall a :: a in acts ==> !a.OpRead?
  }

  lemma LeadsOn(w: World, v: World, a: Action)
    requires Leads(w, v) && Enabled(v, a) && !a.OpRead?
    ensures Leads(w, Apply(v, a))
  {
    var acts :| LeadsBy(w, acts, v);
    RunTwice(w, acts, [a]);
    assert LeadsBy(w, acts + [a], Apply(v, a));
  }

  lemma LeadsNowhere(w: World)
    ensures Leads(w, w)
  {
    assert LeadsBy(w, [], w);
  }

  lemma {:induction false} NoRequeueIsCareful(w: World, acts: seq<Action>)
    requires CanRun(w, acts) && forall a :: a in acts ==> !a.OpRead?
    ensures CarefulRun(w, acts)
    decreases |acts|
  {
    if acts != [] {
      NoRequeueIsCareful(Apply(w, acts[0]), acts[1..]);
    }
  }

  const REFUSAL := Reply(400, false, false, None, None)

  lemma OneMore(u: World, w: World, a: Action) returns (v: World)
    requires Leads(u, w) && Inv(w) && Enabled(w, a) && !a.OpRead?
    ensures v == Apply(w, a) && Leads(u, v) && Inv(v)
  {
    v := Apply(w, a);
    StepKeepsInv(w, a);
    LeadsOn(u, w, a);
  }

  lemma FirstIsSent(u: World, w: World) returns (v: World)
    requires Leads(u, w) && Inv(w) && w.sidecar.Draining? && w.sidecar.rest != []
    ensures Leads(u, v) && Inv(v) && v.rows == w.rows && v.operator == w.operator
    ensures v.sidecar.Lost? && v.sidecar.draft == w.sidecar.rest[0] && v.sidecar.rest == w.sidecar.rest[1..]
  {
    hide Leads, TableOk, FilesOk, ReceiverOk, IsClaim, QueueOk;
    v := OneMore(u, w, Begin);
    v := OneMore(u, v, Send(REFUSAL, false));
    v := OneMore(u, v, Write);
  }

  /** A receiver that refuses the first draft of the queue brings the sidecar to the brink of marking it dead. */
  lemma FirstIsRefused(u: World, w: World) returns (v: World)
    requires Leads(u, w) && Inv(w) && w.sidecar.Draining? && w.sidecar.rest != []
    ensures Leads(u, v) && Inv(v) && v.rows == w.rows && v.operator == w.operator
    ensures v.sidecar.Buried? && v.sidecar.draft == w.sidecar.rest[0] && v.sidecar.rest == w.sidecar.rest[1..]
    ensures v.sidecar.draft.eventId !in v.live
  {
    hide Leads, TableOk, FilesOk, ReceiverOk, IsClaim, QueueOk;
    v := FirstIsSent(u, w);
    v := OneMore(u, v, WriteDead);
    v := OneMore(u, v, Move);
  }

  /** The operator removes the dead-letter file the sidecar has just written, and the sidecar marks the row dead. */
  lemma LastCopyIsRemoved(u: World, w: World) returns (v: World)
    requires Leads(u, w) && Inv(w) && w.sidecar.Buried? && w.operator == Restored(w.sidecar.draft.eventId)
    requires w.sidecar.draft.eventId !in w.live
    ensures Leads(u, v) && !NothingLost(v)
  {
    hide Leads, TableOk, FilesOk, ReceiverOk, IsClaim, QueueOk;
    var d := w.sidecar.draft;
    v := OneMore(u, w, OpUnlink);
    v := OneMore(u, v, FinishDead);
    assert v.rows[d.draftId].draft == d && v.rows[d.draftId].status == DeadLetter;
    assert !HasRecord(v, d.eventId);
  }

  /** While an operator is between writing the live file and removing the dead one, the sidecar takes the live file
      away. */
  lemma {:induction false} RecordIsLost(u: World, w: World, d: Draft) returns (v: World)
    requires Leads(u, w) && Inv(w) && w.sidecar.Draining? && d in w.sidecar.rest && w.operator == Restored(d.eventId)
    ensures Leads(u, v) && !NothingLost(v)
    decreases if w.sidecar.Draining? then |w.sidecar.rest| else 0
  {
    v := FirstIsRefused(u, w);
    if w.sidecar.rest[0] == d {
      v := LastCopyIsRemoved(u, v);
    } else {
      v := OneMore(u, v, FinishDead);
      v := RecordIsLost(u, v, d);
    }
  }

  /** A requeue of this event can do no harm, whatever the sidecar, the receiver and the crashes do next. */
  ghost predicate SafeToRequeue(w: World, e: Id)
    requires Enabled(w, OpRead(e))
  {
    var v := Apply(w, OpRead(e));
    forall acts :: CanRun(v, acts) && CarefulRun(v, acts) ==> NothingLost(Run(v, acts))
  }

  /** The operator writes the live file; the sidecar crashes and claims again, and the draft is in its queue. */
  lemma RaceBegins(w: World, e: Id, k: Id) returns (v: World)
    requires Inv(w) && Enabled(w, OpRead(e)) && k in w.rows && w.rows[k].draft.eventId == e
    requires w.rows[k].status == InFlight
    ensures Leads(Apply(w, OpRead(e)), v) && Inv(v)
    ensures v.sidecar.Draining? && w.rows[k].draft in v.sidecar.rest && v.operator == Restored(e)
  {
    hide FilesOk, ReceiverOk, Leads, TableOk, QueueOk;
    var u := Apply(w, OpRead(e));
    StepKeepsInv(w, OpRead(e));
    LeadsNowhere(u);
    v := OneMore(u, u, OpWrite);
    v := OneMore(u, v, Crash);
    var queue := NextClaimReturnsEveryDraft(v);
    assert Apply(v, Crash) == v;
    assert w.rows[k].draft in queue;
    hide IsClaim;
    v := OneMore(u, v, Claim(queue));
  }

  lemma RaceLosesTheRecord(w: World, e: Id)
    requires Inv(w) && Enabled(w, OpRead(e)) && EventInFlight(w.rows, e)
    ensures !SafeToRequeue(w, e)
  {
    hide NothingLost, Inv, Enabled, Apply, Leads;
    var k :| k in w.rows && w.rows[k].draft.eventId == e && w.rows[k].status == InFlight;
    var v := RaceBegins(w, e, k);
    var last := RecordIsLost(Apply(w, OpRead(e)), v, w.rows[k].draft);
    LossIsUnsafe(w, e, last);
  }

  lemma LossIsUnsafe(w: World, e: Id, last: World)
    requires Enabled(w, OpRead(e)) && Leads(Apply(w, OpRead(e)), last) && !NothingLost(last)
    ensures !SafeToRequeue(w, e)
  {
    hide NothingLost, Enabled, Apply;
    var acts :| LeadsBy(Apply(w, OpRead(e)), acts, last);
    NoRequeueIsCareful(Apply(w, OpRead(e)), acts);
  }

  /** The guard is exact: a requeue is safe if and only if the draft is not in flight when it starts. */
  lemma RequeueIsSafeUnlessInFlight(w: World, e: Id)
    requires Inv(w) && RecordsOk(w) && Enabled(w, OpRead(e))
    ensures SafeToRequeue(w, e) <==> !EventInFlight(w.rows, e)
  {
    if EventInFlight(w.rows, e) {
      RaceLosesTheRecord(w, e);
    } else {
      var u := Apply(w, OpRead(e));
      StepKeepsInv(w, OpRead(e));
      ReadKeepsRecords(w, e);
      forall acts | CanRun(u, acts) && CarefulRun(u, acts) ensures NothingLost(Run(u, acts)) {
        CarefulRunKeepsRecords(u, acts);
        var v := Run(u, acts);
        assert forall k :: k in v.rows ==> RowRecordOk(v, v.rows[k]);
      }
    }
  }

  // ---------------------------------------------------------------- a requeue that leaves its draft behind

  /** The row is dead and no requeue can start on it, nor is one under way. */
  ghost predicate Stranded(w: World, k: Id) {
    && k in w.rows && w.rows[k].status == DeadLetter
    && w.rows[k].draft.eventId !in w.dead
    && (!w.operator.Away? ==> w.operator.eventId != w.rows[k].draft.eventId)
  }

  /** What is not stranded can be requeued: now, or the requeue under way is on it. */
  lemma DeadDraftCanBeRequeuedUnlessStranded(w: World, k: Id)
    requires k in w.rows && w.rows[k].status == DeadLetter && w.operator.Away?
    ensures Stranded(w, k) <==> !Enabled(w, OpRead(w.rows[k].draft.eventId))
  {
  }

  /** A requeue that nothing interrupts, with or without a database to update. */
  ghost function Requeued(w: World, e: Id, database: bool): World
    requires w.operator.Away? && e in w.dead
  {
    var v := Apply(Apply(Apply(w, OpRead(e)), OpWrite), OpUnlink);
    if database then Apply(v, OpUpdate) else Apply(v, OpStop)
  }

  lemma RequeuedIs(w: World, e: Id, database: bool)
    requires w.operator.Away? && e in w.dead
    ensures var v := Requeued(w, e, database);
      && v.operator.Away? && v.dead == w.dead - {e} && v.rows == if database then Requeue(w.rows, e) else w.rows
  {
  }

  /** A requeue of a dead draft that runs to its end strands the draft if and only if it is given no database. */
  lemma RequeueStrandsIffNoDatabase(w: World, k: Id, database: bool)
    requires k in w.rows && w.rows[k].status == DeadLetter
    requires w.operator.Away? && w.rows[k].draft.eventId in w.dead
    ensures Stranded(Requeued(w, w.rows[k].draft.eventId, database), k) <==> !database
  {
    RequeuedIs(w, w.rows[k].draft.eventId, database);
    hide Requeued;
  }

  /** The step that strands a draft: a requeue of it ends after the unlink and without the UPDATE. */
  ghost predicate Abandons(w: World, a: Action, k: Id) {
    && a.OpStop? && k in w.rows && w.rows[k].status == DeadLetter
    && w.operator == Removed(w.rows[k].draft.eventId)
  }

  lemma FinishDoesNotStrand(w: World, a: Action, k: Id)
    requires Inv(w) && RecordsOk(w) && Enabled(w, a) && (a.FinishDelivered? || a.FinishDead?)
    requires k in w.rows && !Stranded(w, k)
    ensures !Stranded(Apply(w, a), k)
  {
    hide FilesOk, ReceiverOk, QueueOk, EventsUnique;
    var v := Apply(w, a);
    assert v.dead == w.dead && v.operator == w.operator;
    if k != w.sidecar.draft.draftId {
      assert v.rows[k] == w.rows[k];
    } else {
      assert w.rows[k].draft == w.sidecar.draft;
    }
  }

  lemma QuietStepDoesNotStrand(w: World, a: Action, k: Id)
    requires Enabled(w, a) && k in w.rows && !Stranded(w, k)
    requires !a.FinishDelivered? && !a.FinishDead? && !a.OpRead? && !a.OpWrite? && !a.OpUnlink? && !a.OpUpdate?
    requires !a.OpStop?
    ensures !Stranded(Apply(w, a), k)
  {
    hide IsClaim;
    var v := Apply(w, a);
    assert w.dead.Keys <= v.dead.Keys && v.operator == w.operator;
    if a.Claim? {
      assert v.rows == MarkInFlight(w.rows);
    } else if a.Submit? {
      assert v.rows[k] == w.rows[k];
    } else {
      assert v.rows == w.rows;
    }
  }

  lemma OperatorStrandsOnlyByAbandoning(w: World, a: Action, k: Id)
    requires Inv(w) && RecordsOk(w) && Enabled(w, a) && k in w.rows && !Stranded(w, k)
    requires a.OpRead? || a.OpWrite? || a.OpUnlink? || a.OpUpdate? || a.OpStop?
    ensures Stranded(Apply(w, a), k) <==> Abandons(w, a, k)
  {
    hide FilesOk, ReceiverOk, SidecarOk, TableOk;
    var v := Apply(w, a);
    assert RowRecordOk(w, w.rows[k]);
    if a.OpUpdate? {
      assert v.rows == Requeue(w.rows, w.operator.eventId);
    } else {
      assert v.rows == w.rows;
    }
  }

  /** Such a stop does strand it, from wherever the operator restored the record. */
  lemma StoppedRequeueStrands(w: World, k: Id)
    requires w.operator.Restored? && k in w.rows && w.rows[k].draft.eventId == w.operator.eventId
    requires w.rows[k].status == DeadLetter
    ensures Abandons(Apply(w, OpUnlink), OpStop, k) && Stranded(Apply(Apply(w, OpUnlink), OpStop), k)
  {
  }

  /** Exactly one step strands a draft that is not stranded: an operator stopping between the unlink and the UPDATE of
      its requeue, be it by a crash or for want of a database. */
  lemma OnlyAbandoningStrands(w: World, a: Action, k: Id)
    requires Inv(w) && RecordsOk(w) && Enabled(w, a) && !Stranded(w, k)
    ensures Stranded(Apply(w, a), k) <==> Abandons(w, a, k)
  {
    if k !in w.rows {
      NewRowIsPending(w, a, k);
    } else if a.OpRead? || a.OpWrite? || a.OpUnlink? || a.OpUpdate? || a.OpStop? {
      OperatorStrandsOnlyByAbandoning(w, a, k);
    } else if a.FinishDelivered? || a.FinishDead? {
      FinishDoesNotStrand(w, a, k);
    } else {
      QuietStepDoesNotStrand(w, a, k);
    }
  }

  lemma NewRowIsPending(w: World, a: Action, k: Id)
    requires Inv(w) && Enabled(w, a) && k !in w.rows
    ensures !Stranded(Apply(w, a), k)
  {
    if !a.Submit? {
      StepKeepsKeys(w, a);
      hide Apply, Enabled;
    }
  }

  ghost predicate AbandonsNone(w: World, acts: seq<Action>)
    requires CanRun(w, acts)
    decreases |acts|
  {
    acts == [] || ((forall k :: !Abandons(w, acts[0], k)) && AbandonsNone(Apply(w, acts[0]), acts[1..]))
  }

  lemma {:induction false} StrandsNoneFrom(w: World, acts: seq<Action>, k: Id)
    requires Inv(w) && RecordsOk(w) && !Stranded(w, k)
    requires CanRun(w, acts) && CarefulRun(w, acts) && AbandonsNone(w, acts)
    ensures !Stranded(Run(w, acts), k)
    decreases |acts|
  {
    if acts != [] {
      StepKeepsInv(w, acts[0]);
      CarefulStepKeepsRecords(w, acts[0]);
      OnlyAbandoningStrands(w, acts[0], k);
      hide Inv, RecordsOk, Stranded, Enabled, Apply, Abandons;
      StrandsNoneFrom(Apply(w, acts[0]), acts[1..], k);
    }
  }

  /** In every run with a careful operator who abandons no requeue, every dead draft can be requeued again. */
  lemma NothingIsStranded(acts: seq<Action>, k: Id)
    requires CanRun(Init(), acts) && CarefulRun(Init(), acts) && AbandonsNone(Init(), acts)
    ensures !Stranded(Run(Init(), acts), k)
  {
    InitOk();
    StrandsNoneFrom(Init(), acts, k);
  }

  /** How often a draft has been posted. */
  ghost function TimesPosted(posts: seq<Post>, k: Id): nat {
    if posts == [] then 0
    else TimesPosted(posts[..|posts| - 1], k) + if posts[|posts| - 1].draftId == k then 1 else 0
  }

  lemma OtherPostsDoNotCount(posts: seq<Post>, p: Post, k: Id)
    requires p.draftId != k
    ensures TimesPosted(posts + [p], k) == TimesPosted(posts, k)
  {
    assert (posts + [p])[..|posts|] == posts;
  }

  lemma StrandedRowStays(w: World, a: Action, k: Id)
    requires Inv(w) && Stranded(w, k) && Enabled(w, a)
    ensures k in Apply(w, a).rows && Apply(w, a).rows[k] == w.rows[k]
  {
    hide ReceiverOk, FilesOk, IsClaim, QueueOk;
    var v := Apply(w, a);
    match a
    case Submit(_) =>
    case Claim(_) => assert v.rows == MarkInFlight(w.rows);
    case FinishDelivered =>
    case FinishDead =>
    case OpUpdate => assert v.rows == Requeue(w.rows, w.operator.eventId);
    case _ => assert v.rows == w.rows;
  }

  lemma StepKeepsStranded(w: World, a: Action, k: Id)
    requires Inv(w) && Stranded(w, k) && Enabled(w, a)
    ensures Stranded(Apply(w, a), k)
  {
    hide ReceiverOk, FilesOk, QueueOk, IsClaim, IsNew, MarkInFlight, Finish, Requeue;
    StrandedRowStays(w, a, k);
    if a.Move? {
      assert w.sidecar.draft.eventId != w.rows[k].draft.eventId;
    } else if !a.OpUnlink? {
      assert Apply(w, a).dead == w.dead;
    }
  }

  lemma StrandedIsNotPosted(w: World, a: Action, k: Id)
    requires Inv(w) && Stranded(w, k) && Enabled(w, a)
    ensures TimesPosted(Apply(w, a).posts, k) == TimesPosted(w.posts, k)
  {
    hide FilesOk, ReceiverOk, IsClaim, QueueOk;
    if a.Send? {
      var d := w.sidecar.draft;
      OtherPostsDoNotCount(w.posts, Post(d.draftId, d.eventId, d.body), k);
    } else {
      assert Apply(w, a).posts == w.posts;
    }
  }

  /** A stranded draft is never sent again, by any run. */
  lemma {:induction false} StrandedForever(w: World, acts: seq<Action>, k: Id)
    requires Inv(w) && Stranded(w, k) && CanRun(w, acts)
    ensures Stranded(Run(w, acts), k) && TimesPosted(Run(w, acts).posts, k) == TimesPosted(w.posts, k)
    decreases |acts|
  {
    if acts != [] {
      StepKeepsInv(w, acts[0]);
      StepKeepsStranded(w, acts[0], k);
      StrandedIsNotPosted(w, acts[0], k);
      hide Inv, Enabled, Apply, Stranded, TimesPosted;
      StrandedForever(Apply(w, acts[0]), acts[1..], k);
    }
  }
}
