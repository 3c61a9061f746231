/** The fleet outbox as a protocol: every durable write, every POST and every crash is a step of its own.

    Three actors share the draft table and the two outbox directories: the app that submits drafts, one sidecar that
    claims, pushes and finishes them, and an operator who requeues dead letters. The receiver is arbitrary: it may
    process an event and answer a refusal, or answer an acceptance and not process the event. */
module Outbox {
  import opened Basics

  type Id(==, !new)
  type Text(==, !new)

  /** The columns of a row that are written once. */
  datatype Draft = Draft(draftId: Id, eventId: Id, createdAt: int, body: Text)

  datatype Status = Pending | InFlight | Delivered | DeadLetter

  datatype Row = Row(draft: Draft, status: Status, attempts: nat, receipt: Option<Text>, lastError: Option<Reply>)

  /** What came back from a POST; a network fault reads as code 0. */
  datatype Reply = Reply(code: int, motherAccepted: bool, duplicate: bool, receipt: Option<Text>, error: Option<Text>)

  datatype FileStatus = LocallySaved | FileDelivered | FileDead

  /** An outbox file. */
  datatype Record = Record(
      draft: Draft, status: FileStatus, attempts: seq<Reply>, receipt: Option<Text>, lastError: Option<Reply>,
      requeues: nat)

  datatype Post = Post(draftId: Id, eventId: Id, body: Text)

  /** What came back from a POST of an event. */
  datatype Answer = Answer(eventId: Id, reply: Reply)

  const MAX_ATTEMPTS := 5

  predicate Accepted(r: Reply) {
    (r.code == 202 && r.motherAccepted) || (r.code == 200 && r.duplicate)
  }

  /** A refusal that the same bytes will meet again. */
  predicate Refused(r: Reply) {
    r.code in {400, 401, 403, 404, 409, 413}
  }

  // ---------------------------------------------------------------- state

  /** Where the sidecar stands; all of it is lost in a crash. `rest` are the claimed drafts still to push. */
  datatype Sidecar =
    | Idle
    | Draining(rest: seq<Draft>)
    | Trying(rest: seq<Draft>, draft: Draft, record: Record, tries: nat)
    | Answered(rest: seq<Draft>, draft: Draft, record: Record, tries: nat, reply: Reply)
    | Won(rest: seq<Draft>, draft: Draft, record: Record, tries: nat)
    | Settled(rest: seq<Draft>, draft: Draft)
    | Lost(rest: seq<Draft>, draft: Draft, record: Record)
    | Burying(rest: seq<Draft>, draft: Draft, record: Record)
    | Buried(rest: seq<Draft>, draft: Draft, record: Record)

  datatype Operator =
    | Away
    | Holding(eventId: Id, copy: Record)
    | Restored(eventId: Id)
    | Removed(eventId: Id)

  datatype World = World(
    rows: map<Id, Row>, live: map<Id, Record>, dead: map<Id, Record>,
    sidecar: Sidecar, operator: Operator,
    inserted: map<Id, Draft>, posts: seq<Post>, answers: set<Answer>, accepted: set<Id>, effects: seq<Post>)

  function Init(): World {
    World(map[], map[], map[], Idle, Away, map[], [], {}, {}, [])
  }

  // ---------------------------------------------------------------- steps

  datatype Action =
    | Submit(draft: Draft)
    | Claim(queue: seq<Draft>)
    | Begin
    | Send(reply: Reply, processed: bool)
    | Write
    | FinishDelivered
    | Unlink
    | WriteDead
    | Move
    | FinishDead
    | DrainDone
    | Crash
    | OpRead(eventId: Id)
    | OpWrite
    | OpUnlink
    | OpUpdate
    | OpStop

  predicate Claimable(r: Row) { r.status == Pending || r.status == InFlight }

  /** What the SELECT of `claim` may return: every row that is in flight after its UPDATE, once, by creation time. */
  ghost predicate IsClaim(rows: map<Id, Row>, queue: seq<Draft>) {
    && (forall i, j ::
         0 <= i < j < |queue| ==> queue[i].draftId != queue[j].draftId && queue[i].createdAt <= queue[j].createdAt)
    && (forall d :: d in queue ==> d.draftId in rows && rows[d.draftId].draft == d && Claimable(rows[d.draftId]))
    && (forall k :: k in rows && Claimable(rows[k]) ==> rows[k].draft in queue)
  }

  /** The UPDATE of `claim`. */
  function MarkInFlight(rows: map<Id, Row>): map<Id, Row> {
    map k | k in rows :: if rows[k].status == Pending then rows[k].(status := InFlight) else rows[k]
  }

  /** `_finish`. */
  function Finish(
      rows: map<Id, Row>, k: Id, status: Status, receipt: Option<Text>, error: Option<Reply>,
      attempts: nat): map<Id, Row>
  {
    if k in rows
    then rows[k := rows[k].(status := status, receipt := receipt, lastError := error, attempts := attempts)] else rows
  }

  /** The UPDATE of `requeue_one`. */
  function Requeue(rows: map<Id, Row>, eventId: Id): map<Id, Row> {
    map k | k in rows ::
      if rows[k].draft.eventId == eventId && rows[k].status == DeadLetter
      then rows[k].(status := Pending, lastError := None) else rows[k]
  }

  /** The record a push starts from: the file that is there, or a new one. */
  function StartRecord(live: map<Id, Record>, d: Draft): Record {
    if d.eventId in live then live[d.eventId] else Record(d, LocallySaved, [], None, None, 0)
  }

  /** The event id is new to the table, as the UNIQUE column demands, and so is the draft id. */
  predicate IsNew(rows: map<Id, Row>, d: Draft) {
    d.draftId !in rows && forall k :: k in rows ==> rows[k].draft.eventId != d.eventId
  }

  ghost predicate Enabled(w: World, a: Action) {
    match a
    case Submit(d) => IsNew(w.rows, d)
    case Claim(queue) => w.sidecar.Idle? && IsClaim(w.rows, queue)
    case Begin => w.sidecar.Draining? && w.sidecar.rest != []
    case Send(_, _) => w.sidecar.Trying?
    case Write => w.sidecar.Answered?
    case FinishDelivered => w.sidecar.Won?
    case Unlink => w.sidecar.Settled?
    case WriteDead => w.sidecar.Lost?
    case Move => w.sidecar.Burying? && w.sidecar.draft.eventId in w.live
    case FinishDead => w.sidecar.Buried?
    case DrainDone => w.sidecar.Draining? && w.sidecar.rest == []
    case Crash => true
    case OpRead(e) => w.operator.Away? && e in w.dead
    case OpWrite => w.operator.Holding?
    case OpUnlink => w.operator.Restored?
    case OpUpdate => w.operator.Removed?
    case OpStop => true
  }

  ghost function Apply(w: World, a: Action): World
    requires Enabled(w, a)
  {
    var s := w.sidecar;
    match a
    case Submit(d) =>
      w.(rows := w.rows[d.draftId := Row(d, Pending, 0, None, None)], inserted := w.inserted[d.draftId := d])
    case Claim(queue) => w.(rows := MarkInFlight(w.rows), sidecar := Draining(queue))
    case Begin =>
      var d := s.rest[0];
      var record := StartRecord(w.live, d);
      w.(live := w.live[d.eventId := record], sidecar := Trying(s.rest[1..], d, record, 0))
    case Send(reply, processed) =>
      var post := Post(s.draft.draftId, s.draft.eventId, s.draft.body);
      var takesEffect := processed && post.eventId !in w.accepted;
      w.(posts := w.posts + [post],
         answers := w.answers + {Answer(post.eventId, reply)},
         accepted := if processed then w.accepted + {post.eventId} else w.accepted,
         effects := if takesEffect then w.effects + [post] else w.effects,
         sidecar := Answered(s.rest, s.draft, s.record.(attempts := s.record.attempts + [reply]), s.tries + 1, reply))
    case Write =>
      if Accepted(s.reply) then
        var record := s.record.(status := FileDelivered, receipt := s.reply.receipt);
        w.(live := w.live[s.draft.eventId := record], sidecar := Won(s.rest, s.draft, record, s.tries))
      else
        w.(live := w.live[s.draft.eventId := s.record],
           sidecar :=
             if Refused(s.reply) || s.tries >= MAX_ATTEMPTS
             then Lost(s.rest, s.draft, s.record.(lastError := Some(s.reply)))
                      else Trying(s.rest, s.draft, s.record, s.tries))
    case FinishDelivered =>
      w.(rows := Finish(w.rows, s.draft.draftId, Delivered, s.record.receipt, None, s.tries),
        sidecar := Settled(s.rest, s.draft))
    case Unlink => w.(live := w.live - {s.draft.eventId}, sidecar := Draining(s.rest))
    case WriteDead =>
      var record := s.record.(status := FileDead);
      w.(live := w.live[s.draft.eventId := record], sidecar := Burying(s.rest, s.draft, record))
    case Move =>
      var e := s.draft.eventId;
      w.(dead := w.dead[e := w.live[e]], live := w.live - {e}, sidecar := Buried(s.rest, s.draft, s.record))
    case FinishDead =>
      w.(rows := Finish(w.rows, s.draft.draftId, DeadLetter, None, s.record.lastError, |s.record.attempts|),
        sidecar := Draining(s.rest))
    case DrainDone => w.(sidecar := Idle)
    case Crash => w.(sidecar := Idle)
    case OpRead(e) =>
      w.(operator := Holding(e, w.dead[e].(status := LocallySaved, requeues := w.dead[e].requeues + 1)))
    case OpWrite => w.(live := w.live[w.operator.eventId := w.operator.copy], operator := Restored(w.operator.eventId))
    case OpUnlink => w.(dead := w.dead - {w.operator.eventId}, operator := Removed(w.operator.eventId))
    case OpUpdate => w.(rows := Requeue(w.rows, w.operator.eventId), operator := Away)
    case OpStop => w.(operator := Away)
  }

  ghost predicate CanRun(w: World, acts: seq<Action>)
    decreases |acts|
  {
    acts == [] || (Enabled(w, acts[0]) && CanRun(Apply(w, acts[0]), acts[1..]))
  }

  ghost function Run(w: World, acts: seq<Action>): World
    requires CanRun(w, acts)
    decreases |acts|
  {
    if acts == [] then w else Run(Apply(w, acts[0]), acts[1..])
  }

  // ---------------------------------------------------------------- the invariant

  ghost predicate IsRowOf(rows: map<Id, Row>, d: Draft) {
    d.draftId in rows && rows[d.draftId].draft == d
  }

  ghost predicate InFlightRow(rows: map<Id, Row>, d: Draft) {
    IsRowOf(rows, d) && rows[d.draftId].status == InFlight
  }

  /** A file, or a copy of one in memory, that belongs to the row with that event. */
  ghost predicate Belongs(rows: map<Id, Row>, e: Id, record: Record) {
    record.draft.eventId == e && IsRowOf(rows, record.draft)
  }

  /** One table: ids are keys, event ids are unique, and the columns written once are what was submitted. */
  ghost predicate TableOk(w: World) {
    && w.rows.Keys == w.inserted.Keys
    && (forall k :: k in w.rows ==> w.rows[k].draft == w.inserted[k] && w.inserted[k].draftId == k)
    && EventsUnique(w.rows)
  }

  ghost predicate EventsUnique(rows: map<Id, Row>) {
    forall k, l :: k in rows && l in rows && rows[k].draft.eventId == rows[l].draft.eventId ==> k == l
  }

  ghost predicate DirOk(rows: map<Id, Row>, dir: map<Id, Record>) {
    forall e :: e in dir ==> Belongs(rows, e, dir[e])
  }

  ghost predicate FilesOk(w: World) {
    && DirOk(w.rows, w.live)
    && DirOk(w.rows, w.dead)
    && (w.operator.Holding? ==> Belongs(w.rows, w.operator.eventId, w.operator.copy))
  }

  ghost predicate IsInserted(inserted: map<Id, Draft>, p: Post) {
    p.draftId in inserted && inserted[p.draftId].eventId == p.eventId && inserted[p.draftId].body == p.body
  }

  ghost function EventsOf(posts: seq<Post>): set<Id> {
    set p | p in posts :: p.eventId
  }

  /** Some POST of this event was accepted, with this receipt. */
  ghost predicate Acknowledged(answers: set<Answer>, e: Id, receipt: Option<Text>) {
    exists r :: Answer(e, r) in answers && Accepted(r) && r.receipt == receipt
  }

  /** This is what came back from a POST of this event that was not accepted. */
  predicate TurnedDown(answers: set<Answer>, e: Id, error: Option<Reply>) {
    error.Some? && Answer(e, error.value) in answers && !Accepted(error.value)
  }

  /** A settled row says what its receiver said, an open one says nothing yet. */
  ghost predicate RowOk(answers: set<Answer>, row: Row) {
    match row.status
    case Delivered =>
      Acknowledged(answers, row.draft.eventId, row.receipt) && row.lastError == None && 1 <= row.attempts <= 5
    case DeadLetter =>
      row.receipt == None && TurnedDown(answers, row.draft.eventId, row.lastError) && 1 <= row.attempts
    case _ => row.receipt == None && row.lastError == None
  }

  ghost predicate RowsOk(rows: map<Id, Row>, answers: set<Answer>) {
    forall k :: k in rows ==> RowOk(answers, rows[k])
  }

  /** What was sent is what was submitted; an effect is a processed post, at most one per event; a row says what came
      back. */
  ghost predicate ReceiverOk(w: World) {
    && (forall p :: p in w.posts ==> IsInserted(w.inserted, p))
    && (forall p :: p in w.effects ==> p in w.posts)
    && w.accepted == EventsOf(w.effects)
    && (forall i, j :: 0 <= i < j < |w.effects| ==> w.effects[i].eventId != w.effects[j].eventId)
    && RowsOk(w.rows, w.answers)
  }

  /** The drafts of a queue are in flight, each once. */
  ghost predicate QueueOk(rows: map<Id, Row>, queue: seq<Draft>) {
    && (forall d :: d in queue ==> InFlightRow(rows, d))
    && (forall i, j :: 0 <= i < j < |queue| ==> queue[i].draftId != queue[j].draftId)
  }

  ghost predicate PushOk(w: World, rest: seq<Draft>, d: Draft, record: Record) {
    && InFlightRow(w.rows, d) && QueueOk(w.rows, rest) && (forall r :: r in rest ==> r.draftId != d.draftId)
    && Belongs(w.rows, d.eventId, record)
  }

  /** A push that was never accepted, on its way to the dead letters. */
  ghost predicate DyingOk(w: World, rest: seq<Draft>, d: Draft, record: Record) {
    PushOk(w, rest, d, record) && TurnedDown(w.answers, d.eventId, record.lastError) && record.attempts != []
  }

  ghost predicate SidecarOk(w: World) {
    match w.sidecar
    case Idle => true
    case Draining(rest) => QueueOk(w.rows, rest)
    case Trying(rest, d, record, tries) => PushOk(w, rest, d, record) && d.eventId in w.live && tries < MAX_ATTEMPTS
    case Answered(rest, d, record, tries, reply) =>
      && PushOk(w, rest, d, record) && d.eventId in w.live && 1 <= tries <= MAX_ATTEMPTS
      && Answer(d.eventId, reply) in w.answers && record.attempts != []
    case Won(rest, d, record, tries) =>
      && PushOk(w, rest, d, record) && d.eventId in w.live && 1 <= tries <= MAX_ATTEMPTS
      && Acknowledged(w.answers, d.eventId, record.receipt)
    case Settled(rest, d) => QueueOk(w.rows, rest) && IsRowOf(w.rows, d) && w.rows[d.draftId].status == Delivered
    case Lost(rest, d, record) => DyingOk(w, rest, d, record) && d.eventId in w.live
    case Burying(rest, d, record) => DyingOk(w, rest, d, record) && d.eventId in w.live
    case Buried(rest, d, record) => DyingOk(w, rest, d, record)
  }

  ghost predicate Inv(w: World) {
    TableOk(w) && FilesOk(w) && ReceiverOk(w) && SidecarOk(w)
  }

  lemma InitOk()
    ensures Inv(Init())
  {
  }

  /** Every row stays, with the columns that are written once, and a delivered row stays as it is. */
  ghost predicate RowsKept(rows: map<Id, Row>, later: map<Id, Row>) {
    forall k :: k in rows ==> RowKept(rows[k], later, k)
  }

  ghost predicate RowKept(row: Row, later: map<Id, Row>, k: Id) {
    k in later && later[k].draft == row.draft && (row.status == Delivered ==> later[k] == row)
  }

  lemma FinishKeepsRows(
      rows: map<Id, Row>, d: Draft, status: Status, receipt: Option<Text>, error: Option<Reply>, attempts: nat)
    requires InFlightRow(rows, d)
    ensures RowsKept(rows, Finish(rows, d.draftId, status, receipt, error, attempts))
  {
  }

  /** A step keeps every row, with the columns that are written once, and keeps delivered rows as they are. */
  lemma StepKeepsRows(w: World, a: Action)
    requires Enabled(w, a) && SidecarOk(w)
    ensures RowsKept(w.rows, Apply(w, a).rows)
  {
    var v := Apply(w, a);
    match a
    case Submit(d) => assert v.rows == w.rows[d.draftId := Row(d, Pending, 0, None, None)];
    case Claim(queue) => assert v.rows == MarkInFlight(w.rows);
    case FinishDelivered =>
      FinishKeepsRows(w.rows, w.sidecar.draft, Delivered, w.sidecar.record.receipt, None, w.sidecar.tries);
    case FinishDead =>
      FinishKeepsRows(w.rows, w.sidecar.draft, DeadLetter, None, w.sidecar.record.lastError,
        |w.sidecar.record.attempts|);
    case OpUpdate => assert v.rows == Requeue(w.rows, w.operator.eventId);
    case _ => assert v.rows == w.rows;
  }

  lemma SubmitKeepsTable(w: World, d: Draft)
    requires TableOk(w) && Enabled(w, Submit(d))
    ensures TableOk(Apply(w, Submit(d)))
  {
    hide IsClaim;
  }

  /** Rows that keep their keys and drafts make up a table as good as before. */
  lemma SameDraftsKeepTable(w: World, v: World)
    requires TableOk(w) && v.inserted == w.inserted && v.rows.Keys == w.rows.Keys && RowsKept(w.rows, v.rows)
    ensures TableOk(v)
  {
    forall k | k in v.rows ensures v.rows[k].draft == w.rows[k].draft {
      assert RowKept(w.rows[k], v.rows, k);
    }
  }

  lemma StepKeepsKeys(w: World, a: Action)
    requires Enabled(w, a) && !a.Submit?
    ensures Apply(w, a).rows.Keys == w.rows.Keys && Apply(w, a).inserted == w.inserted
  {
    hide IsClaim, IsNew;
    var v := Apply(w, a);
    if a.Claim? {
      assert v.rows == MarkInFlight(w.rows);
    } else if a.OpUpdate? {
      assert v.rows == Requeue(w.rows, w.operator.eventId);
    } else if !a.FinishDelivered? && !a.FinishDead? {
      assert v.rows == w.rows;
    }
  }

  lemma StepKeepsTable(w: World, a: Action)
    requires TableOk(w) && SidecarOk(w) && Enabled(w, a)
    ensures TableOk(Apply(w, a))
  {
    if a.Submit? {
      SubmitKeepsTable(w, a.draft);
    } else {
      StepKeepsKeys(w, a);
      StepKeepsRows(w, a);
      hide RowsKept, TableOk, SidecarOk, Enabled, Apply;
      SameDraftsKeepTable(w, Apply(w, a));
    }
  }

  lemma DirKept(rows: map<Id, Row>, later: map<Id, Row>, dir: map<Id, Record>)
    requires RowsKept(rows, later) && DirOk(rows, dir)
    ensures DirOk(later, dir)
  {
    forall e | e in dir ensures Belongs(later, e, dir[e]) {
      assert Belongs(rows, e, dir[e]);
      assert RowKept(rows[dir[e].draft.draftId], later, dir[e].draft.draftId);
    }
  }

  lemma StepKeepsLive(w: World, a: Action)
    requires Inv(w) && Enabled(w, a)
    ensures DirOk(Apply(w, a).rows, Apply(w, a).live)
  {
    hide TableOk, ReceiverOk, IsClaim, IsNew, MarkInFlight, Finish, Requeue;
    var v := Apply(w, a);
    StepKeepsRows(w, a);
    DirKept(w.rows, v.rows, w.live);
    if a.Begin? {
      var d := w.sidecar.rest[0];
      assert InFlightRow(w.rows, d);
      assert v.live == w.live[d.eventId := StartRecord(w.live, d)];
    }
  }

  lemma MoveKeepsDead(w: World)
    requires Inv(w) && Enabled(w, Move)
    ensures DirOk(Apply(w, Move).rows, Apply(w, Move).dead)
  {
    var e := w.sidecar.draft.eventId;
    assert Belongs(w.rows, e, w.live[e]);
  }

  lemma FewerFilesAreOk(rows: map<Id, Row>, dir: map<Id, Record>, e: Id)
    requires DirOk(rows, dir)
    ensures DirOk(rows, dir - {e})
  {
  }

  lemma DeadAfter(w: World, a: Action)
    requires Enabled(w, a) && !a.Move?
    ensures a.OpUnlink? ==> Apply(w, a).dead == w.dead - {w.operator.eventId}
    ensures !a.OpUnlink? ==> Apply(w, a).dead == w.dead
  {
    hide IsClaim, IsNew, MarkInFlight, Finish, Requeue, StartRecord;
  }

  lemma StepKeepsDead(w: World, a: Action)
    requires Inv(w) && Enabled(w, a)
    ensures DirOk(Apply(w, a).rows, Apply(w, a).dead)
  {
    if a.Move? {
      MoveKeepsDead(w);
    } else {
      hide TableOk, ReceiverOk, SidecarOk, DirOk, RowsKept, Apply, Enabled;
      var v := Apply(w, a);
      StepKeepsRows(w, a);
      DirKept(w.rows, v.rows, w.dead);
      DeadAfter(w, a);
      if a.OpUnlink? {
        FewerFilesAreOk(v.rows, w.dead, w.operator.eventId);
      }
    }
  }

  lemma StepKeepsFiles(w: World, a: Action)
    requires Inv(w) && Enabled(w, a)
    ensures FilesOk(Apply(w, a))
  {
    var v := Apply(w, a);
    StepKeepsRows(w, a);
    StepKeepsLive(w, a);
    StepKeepsDead(w, a);
    if a.OpRead? {
      assert Belongs(w.rows, a.eventId, w.dead[a.eventId]);
    } else if w.operator.Holding? {
      var d := w.operator.copy.draft;
      assert RowKept(w.rows[d.draftId], v.rows, d.draftId);
    }
  }

  lemma SendOk(w: World, reply: Reply, processed: bool)
    requires Inv(w) && Enabled(w, Send(reply, processed))
    ensures ReceiverOk(Apply(w, Send(reply, processed)))
  {
    SendKeepsRowsOk(w, reply, processed);
    hide RowsOk;
    var v := Apply(w, Send(reply, processed));
    if v.effects != w.effects {
      var post := Post(w.sidecar.draft.draftId, w.sidecar.draft.eventId, w.sidecar.draft.body);
      assert v.effects == w.effects + [post];
      assert EventsOf(v.effects) == EventsOf(w.effects) + {post.eventId};
    }
  }

  lemma MoreAnswersKeepRow(answers: set<Answer>, more: set<Answer>, row: Row)
    requires RowOk(answers, row) && answers <= more
    ensures RowOk(more, row)
  {
    if row.status == Delivered {
      var r :| Answer(row.draft.eventId, r) in answers && Accepted(r) && r.receipt == row.receipt;
      assert Answer(row.draft.eventId, r) in more;
    }
  }

  lemma SendKeepsRowsOk(w: World, reply: Reply, processed: bool)
    requires Inv(w) && Enabled(w, Send(reply, processed))
    ensures RowsOk(Apply(w, Send(reply, processed)).rows, Apply(w, Send(reply, processed)).answers)
  {
    var v := Apply(w, Send(reply, processed));
    assert v.rows == w.rows && w.answers <= v.answers;
    hide RowOk, Inv, Enabled, Apply;
    forall k | k in v.rows ensures RowOk(v.answers, v.rows[k]) {
      MoreAnswersKeepRow(w.answers, v.answers, v.rows[k]);
    }
  }

  lemma FinishKeepsRowsOk(
      rows: map<Id, Row>, answers: set<Answer>, k: Id, status: Status, receipt: Option<Text>, error: Option<Reply>,
      attempts: nat)
    requires RowsOk(rows, answers) && k in rows && RowOk(answers, Row(rows[k].draft, status, attempts, receipt, error))
    ensures RowsOk(Finish(rows, k, status, receipt, error, attempts), answers)
  {
    hide RowOk;
  }

  /** Away from a POST, a row changes what it says only to what came back. */
  lemma RowsStayOk(w: World, a: Action)
    requires Inv(w) && Enabled(w, a)
    ensures RowsOk(Apply(w, a).rows, w.answers)
  {
    hide FilesOk, IsClaim, IsNew, QueueOk, TableOk;
    var v, s := Apply(w, a), w.sidecar;
    match a
    case Submit(d) => assert v.rows == w.rows[d.draftId := Row(d, Pending, 0, None, None)];
    case Claim(queue) => assert v.rows == MarkInFlight(w.rows);
    case FinishDelivered =>
      FinishKeepsRowsOk(w.rows, w.answers, s.draft.draftId, Delivered, s.record.receipt, None, s.tries);
    case FinishDead =>
      FinishKeepsRowsOk(w.rows, w.answers, s.draft.draftId, DeadLetter, None, s.record.lastError, |s.record.attempts|);
    case OpUpdate => assert v.rows == Requeue(w.rows, w.operator.eventId);
    case _ => assert v.rows == w.rows;
  }

  lemma StepKeepsReceiver(w: World, a: Action)
    requires Inv(w) && Enabled(w, a)
    ensures ReceiverOk(Apply(w, a))
  {
    if a.Send? {
      SendOk(w, a.reply, a.processed);
    } else {
      var v := Apply(w, a);
      RowsStayOk(w, a);
      hide RowsOk, FilesOk, SidecarOk;
      assert v.posts == w.posts && v.effects == w.effects && v.accepted == w.accepted && v.answers == w.answers;
      forall p | p in v.posts ensures IsInserted(v.inserted, p) {
        assert IsInserted(w.inserted, p);
      }
    }
  }

  /** What the sidecar holds in memory survives any step that is not its own. */
  lemma OthersKeepSidecar(w: World, v: World)
    requires SidecarOk(w) && v.sidecar == w.sidecar
    requires w.live.Keys <= v.live.Keys && w.answers <= v.answers && RowsKept(w.rows, v.rows)
    requires forall d :: InFlightRow(w.rows, d) ==> InFlightRow(v.rows, d)
    ensures SidecarOk(v)
  {
    match w.sidecar
    case Idle =>
    case Draining(rest) =>
    case Settled(rest, d) => assert RowKept(w.rows[d.draftId], v.rows, d.draftId);
    case _ =>
  }

  lemma FinishKeepsQueue(
      rows: map<Id, Row>, k: Id, status: Status, receipt: Option<Text>, error: Option<Reply>, attempts: nat,
      queue: seq<Draft>)
    requires QueueOk(rows, queue) && forall d :: d in queue ==> d.draftId != k
    ensures QueueOk(Finish(rows, k, status, receipt, error, attempts), queue)
  {
    forall d | d in queue ensures InFlightRow(Finish(rows, k, status, receipt, error, attempts), d) {
      assert InFlightRow(rows, d);
    }
  }

  lemma ClaimStartsQueue(rows: map<Id, Row>, queue: seq<Draft>)
    requires IsClaim(rows, queue)
    ensures QueueOk(MarkInFlight(rows), queue)
  {
  }

  lemma BeginOk(w: World)
    requires Inv(w) && Enabled(w, Begin)
    ensures SidecarOk(Apply(w, Begin))
  {
    var rest := w.sidecar.rest;
    var d := rest[0];
    assert InFlightRow(w.rows, d);
    forall r | r in rest[1..] ensures r.draftId != d.draftId {
      var i :| 0 < i < |rest| && rest[i] == r;
    }
  }

  predicate IsSidecarStep(a: Action) {
    match a
    case Submit(_) => false
    case OpRead(_) => false
    case OpWrite => false
    case OpUnlink => false
    case OpUpdate => false
    case OpStop => false
    case _ => true
  }

  /** A finish takes the draft off the queue. */
  lemma FinishStepOk(w: World, a: Action)
    requires Inv(w) && Enabled(w, a) && (a.FinishDelivered? || a.FinishDead?)
    ensures SidecarOk(Apply(w, a))
  {
    var s := w.sidecar;
    if a.FinishDelivered? {
      FinishKeepsQueue(w.rows, s.draft.draftId, Delivered, s.record.receipt, None, s.tries, s.rest);
    } else {
      FinishKeepsQueue(w.rows, s.draft.draftId, DeadLetter, None, s.record.lastError, |s.record.attempts|, s.rest);
    }
  }

  /** A push between its first write and its finish changes no row. */
  lemma PushStepOk(w: World, a: Action)
    requires Inv(w) && Enabled(w, a) && (a.Send? || a.WriteDead? || a.Move?)
    ensures SidecarOk(Apply(w, a))
  {
    assert Apply(w, a).rows == w.rows;
  }

  lemma WriteOk(w: World)
    requires Inv(w) && Enabled(w, Write)
    ensures SidecarOk(Apply(w, Write))
  {
    assert Apply(w, Write).rows == w.rows;
  }

  lemma StepKeepsSidecar(w: World, a: Action)
    requires Inv(w) && Enabled(w, a)
    ensures SidecarOk(Apply(w, a))
  {
    if !IsSidecarStep(a) {
      StepKeepsRows(w, a);
      OthersKeepSidecar(w, Apply(w, a));
    } else if a.FinishDelivered? || a.FinishDead? {
      FinishStepOk(w, a);
    } else if a.Write? {
      WriteOk(w);
    } else if a.Send? || a.WriteDead? || a.Move? {
      PushStepOk(w, a);
    } else if a.Claim? {
      ClaimStartsQueue(w.rows, a.queue);
    } else if a.Begin? {
      BeginOk(w);
    }
  }

  lemma StepKeepsInv(w: World, a: Action)
    requires Inv(w) && Enabled(w, a)
    ensures Inv(Apply(w, a))
  {
    StepKeepsTable(w, a);
    StepKeepsFiles(w, a);
    StepKeepsReceiver(w, a);
    StepKeepsSidecar(w, a);
  }

  // ---------------------------------------------------------------- runs

  lemma {:induction false} RunKeepsInv(w: World, acts: seq<Action>)
    requires Inv(w) && CanRun(w, acts)
    ensures Inv(Run(w, acts))
    decreases |acts|
  {
    if acts != [] {
      StepKeepsInv(w, acts[0]);
      RunKeepsInv(Apply(w, acts[0]), acts[1..]);
    }
  }

  /** In every run the columns of a draft never change and a delivered row stays as it is. */
  lemma {:induction false} RunKeepsRows(w: World, acts: seq<Action>)
    requires Inv(w) && CanRun(w, acts)
    ensures RowsKept(w.rows, Run(w, acts).rows)
    decreases |acts|
  {
    if acts != [] {
      var v := Apply(w, acts[0]);
      StepKeepsInv(w, acts[0]);
      StepKeepsRows(w, acts[0]);
      RunKeepsRows(v, acts[1..]);
      forall k | k in w.rows ensures RowKept(w.rows[k], Run(w, acts).rows, k) {
        assert RowKept(w.rows[k], v.rows, k);
        assert RowKept(v.rows[k], Run(v, acts[1..]).rows, k);
      }
    }
  }

  lemma {:induction false} RunTwice(w: World, first: seq<Action>, second: seq<Action>)
    requires CanRun(w, first) && CanRun(Run(w, first), second)
    ensures CanRun(w, first + second) && Run(w, first + second) == Run(Run(w, first), second)
    decreases |first|
  {
    if first == [] {
      assert first + second == second;
    } else {
      RunTwice(Apply(w, first[0]), first[1..], second);
      assert (first + second)[0] == first[0] && (first + second)[1..] == first[1..] + second;
    }
  }

  /** A state some run arrives at. */
  ghost predicate Reachable(w: World) {
    exists acts :: ReachedBy(acts, w)
  }

  ghost predicate ReachedBy(acts: seq<Action>, w: World) {
    CanRun(Init(), acts) && Run(Init(), acts) == w
  }

  lemma ReachableStep(w: World, a: Action)
    requires Reachable(w) && Enabled(w, a)
    ensures Reachable(Apply(w, a))
  {
    var acts :| ReachedBy(acts, w);
    RunTwice(Init(), acts, [a]);
    assert ReachedBy(acts + [a], Apply(w, a));
  }

  lemma ReachableIsOk(w: World)
    requires Reachable(w)
    ensures Inv(w)
  {
    var acts :| ReachedBy(acts, w);
    InitOk();
    RunKeepsInv(Init(), acts);
  }

  /** In every run, with a crash between any two steps: each POST carries the body and the event id of a submitted
      draft, and a receiver that deduplicates by event id acts at most once on each event and on each draft, whatever it
      answers. */
  lemma EveryPostIsADraft(acts: seq<Action>)
    requires CanRun(Init(), acts)
    ensures var w := Run(Init(), acts);
      && (forall p ::
           p in w.posts ==>
           p.draftId in w.rows && p == Post(p.draftId, w.rows[p.draftId].draft.eventId, w.rows[p.draftId].draft.body))
      && (forall p :: p in w.effects ==> p in w.posts)
      && (forall i, j ::
           0 <= i < j < |w.effects| ==>
           w.effects[i].eventId != w.effects[j].eventId && w.effects[i].draftId != w.effects[j].draftId)
  {
    InitOk();
    RunKeepsInv(Init(), acts);
    var w := Run(Init(), acts);
    forall i, j | 0 <= i < j < |w.effects| ensures w.effects[i].draftId != w.effects[j].draftId {
      assert IsInserted(w.inserted, w.effects[i]) && IsInserted(w.inserted, w.effects[j]);
    }
  }

  /** Step `n` of a run is a POST of an event, and what came back. */
  ghost predicate AnsweredAt(w: World, acts: seq<Action>, n: nat, x: Answer) {
    && n < |acts| && acts[n].Send? && acts[n].reply == x.reply
    && CanRun(w, acts[..n]) && Run(w, acts[..n]).sidecar.Trying? && Run(w, acts[..n]).sidecar.draft.eventId == x.eventId
  }

  lemma {:induction false} AnswersCameBack(w: World, acts: seq<Action>, x: Answer) returns (n: nat)
    requires CanRun(w, acts) && x in Run(w, acts).answers && x !in w.answers
    ensures AnsweredAt(w, acts, n, x)
    decreases |acts|
  {
    var v := Apply(w, acts[0]);
    if x in v.answers {
      n := 0;
    } else {
      var m := AnswersCameBack(v, acts[1..], x);
      n := m + 1;
      assert acts[..n][0] == acts[0] && acts[..n][1..] == acts[1..][..m];
    }
  }

  /** Whatever the receiver does: a draft is marked delivered only after a POST of its event came back accepted, and its
      row carries the receipt of that reply and no error. */
  lemma DeliveredOnlyAfterAcceptance(acts: seq<Action>, k: Id) returns (n: nat)
    requires CanRun(Init(), acts) && k in Run(Init(), acts).rows && Run(Init(), acts).rows[k].status == Delivered
    ensures var row := Run(Init(), acts).rows[k];
      && n < |acts| && acts[n].Send? && AnsweredAt(Init(), acts, n, Answer(row.draft.eventId, acts[n].reply))
      && Accepted(acts[n].reply) && row.receipt == acts[n].reply.receipt
      && row.lastError == None && 1 <= row.attempts <= 5
  {
    InitOk();
    RunKeepsInv(Init(), acts);
    var w := Run(Init(), acts);
    var row := w.rows[k];
    assert RowOk(w.answers, row);
    var r :| Answer(row.draft.eventId, r) in w.answers && Accepted(r) && r.receipt == row.receipt;
    n := AnswersCameBack(Init(), acts, Answer(row.draft.eventId, r));
  }

  /** A draft is marked dead only after a POST of its event came back not accepted, and its row carries that reply as
      its error and no receipt. */
  lemma DeadOnlyAfterFailure(acts: seq<Action>, k: Id) returns (n: nat)
    requires CanRun(Init(), acts) && k in Run(Init(), acts).rows && Run(Init(), acts).rows[k].status == DeadLetter
    ensures var row := Run(Init(), acts).rows[k];
      && n < |acts| && acts[n].Send? && AnsweredAt(Init(), acts, n, Answer(row.draft.eventId, acts[n].reply))
      && !Accepted(acts[n].reply) && row.lastError == Some(acts[n].reply)
      && row.receipt == None && 1 <= row.attempts
  {
    InitOk();
    RunKeepsInv(Init(), acts);
    var w := Run(Init(), acts);
    var row := w.rows[k];
    assert RowOk(w.answers, row);
    n := AnswersCameBack(Init(), acts, Answer(row.draft.eventId, row.lastError.value));
  }

  /** A receiver that answers an acceptance only for an event it processes now or has processed before. */
  ghost predicate HonestStep(w: World, a: Action) {
    a.Send? && w.sidecar.Trying? && Accepted(a.reply) ==> a.processed || w.sidecar.draft.eventId in w.accepted
  }

  ghost predicate HonestRun(w: World, acts: seq<Action>)
    requires CanRun(w, acts)
    decreases |acts|
  {
    acts == [] || (HonestStep(w, acts[0]) && HonestRun(Apply(w, acts[0]), acts[1..]))
  }

  /** What came back accepted was processed. */
  ghost predicate AcceptedWasProcessed(w: World) {
    forall x :: x in w.answers && Accepted(x.reply) ==> x.eventId in w.accepted
  }

  lemma {:induction false} HonestMeansProcessed(w: World, acts: seq<Action>)
    requires CanRun(w, acts) && HonestRun(w, acts) && AcceptedWasProcessed(w)
    ensures AcceptedWasProcessed(Run(w, acts))
    decreases |acts|
  {
    if acts != [] {
      HonestMeansProcessed(Apply(w, acts[0]), acts[1..]);
    }
  }

  /** With an honest receiver a draft marked delivered took effect, exactly once, with its own body. */
  lemma DeliveredTookEffectOnce(acts: seq<Action>, k: Id) returns (i: nat)
    requires CanRun(Init(), acts) && HonestRun(Init(), acts)
    requires k in Run(Init(), acts).rows && Run(Init(), acts).rows[k].status == Delivered
    ensures var w := Run(Init(), acts); var d := w.rows[k].draft;
      && i < |w.effects| && w.effects[i] == Post(k, d.eventId, d.body)
      && forall j :: 0 <= j < |w.effects| && w.effects[j].eventId == d.eventId ==> j == i
  {
    InitOk();
    RunKeepsInv(Init(), acts);
    HonestMeansProcessed(Init(), acts);
    var w := Run(Init(), acts);
    var d := w.rows[k].draft;
    assert RowOk(w.answers, w.rows[k]);
    var r :| Answer(d.eventId, r) in w.answers && Accepted(r) && r.receipt == w.rows[k].receipt;
    assert d.eventId in EventsOf(w.effects);
    i :| i < |w.effects| && w.effects[i].eventId == d.eventId;
    var p := w.effects[i];
    assert IsInserted(w.inserted, p);
    assert w.rows[p.draftId].draft.eventId == w.rows[k].draft.eventId;
  }

  // ---------------------------------------------------------------- the next claim

  ghost predicate InOrder(queue: seq<Draft>) {
    forall i, j :: 0 <= i < j < |queue| ==> queue[i].createdAt <= queue[j].createdAt
  }

  ghost predicate DistinctDrafts(queue: seq<Draft>) {
    forall i, j :: 0 <= i < j < |queue| ==> queue[i].draftId != queue[j].draftId
  }

  function InsertByTime(queue: seq<Draft>, d: Draft): (r: seq<Draft>)
    ensures forall x :: x in r <==> x in queue || x == d
  {
    if queue == [] || d.createdAt <= queue[0].createdAt then [d] + queue
    else [queue[0]] + InsertByTime(queue[1..], d)
  }

  lemma {:induction false} InsertKeepsOrder(queue: seq<Draft>, d: Draft)
    requires InOrder(queue) && DistinctDrafts(queue) && forall x :: x in queue ==> x.draftId != d.draftId
    ensures InOrder(InsertByTime(queue, d)) && DistinctDrafts(InsertByTime(queue, d))
  {
    if queue != [] && d.createdAt > queue[0].createdAt {
      var r := InsertByTime(queue[1..], d);
      InsertKeepsOrder(queue[1..], d);
      forall x | x in r ensures queue[0].createdAt <= x.createdAt && queue[0].draftId != x.draftId {
        if x != d {
          var i :| 0 <= i < |queue[1..]| && queue[1..][i] == x;
          assert x == queue[i + 1];
        }
      }
    }
  }

  /** The queue holds the drafts of exactly these rows. */
  ghost predicate Selects(rows: map<Id, Row>, keys: set<Id>, queue: seq<Draft>) {
    && InOrder(queue) && DistinctDrafts(queue)
    && (forall d :: d in queue ==> d.draftId in keys && d.draftId in rows && rows[d.draftId].draft == d)
    && (forall k :: k in keys && k in rows ==> rows[k].draft in queue)
  }

  lemma SelectOneMore(rows: map<Id, Row>, keys: set<Id>, queue: seq<Draft>, k: Id)
    requires Selects(rows, keys, queue) && k in rows && rows[k].draft.draftId == k && k !in keys
    ensures Selects(rows, keys + {k}, InsertByTime(queue, rows[k].draft))
  {
    InsertKeepsOrder(queue, rows[k].draft);
  }

  lemma {:induction false} SelectionExists(rows: map<Id, Row>, keys: set<Id>) returns (queue: seq<Draft>)
    requires forall k :: k in keys ==> k in rows && rows[k].draft.draftId == k
    ensures Selects(rows, keys, queue)
    decreases keys
  {
    if keys == {} {
      queue := [];
    } else {
      var k :| k in keys;
      var rest := SelectionExists(rows, keys - {k});
      SelectOneMore(rows, keys - {k}, rest, k);
      queue := InsertByTime(rest, rows[k].draft);
      assert keys == keys - {k} + {k};
    }
  }

  function ClaimableKeys(rows: map<Id, Row>): set<Id> {
    set k | k in rows && Claimable(rows[k])
  }

  lemma SelectionIsClaim(rows: map<Id, Row>, queue: seq<Draft>)
    requires Selects(rows, ClaimableKeys(rows), queue)
    ensures IsClaim(rows, queue)
  {
  }

  /** Wherever a crash leaves the system, the next claim can run, and it returns every draft not yet settled. */
  lemma NextClaimReturnsEveryDraft(w: World) returns (queue: seq<Draft>)
    requires Inv(w)
    ensures Enabled(Apply(w, Crash), Claim(queue))
    ensures var v := Apply(Apply(w, Crash), Claim(queue));
      && v.sidecar == Draining(queue)
      && (forall k ::
           k in w.rows && (w.rows[k].status == Pending || w.rows[k].status == InFlight) ==> w.rows[k].draft in queue)
      && (forall k :: k in v.rows ==> v.rows[k].status != Pending)
  {
    queue := SelectionExists(w.rows, ClaimableKeys(w.rows));
    SelectionIsClaim(w.rows, queue);
    assert Apply(Apply(w, Crash), Claim(queue)).rows == MarkInFlight(w.rows);
  }

  // ---------------------------------------------------------------- what the files say

  /** What each durable write leaves in the files of its event, so that whoever finds them after a crash can tell: the
      replies noted so far, an acceptance with its receipt, a death with its error, or a requeue that is counted. */
  lemma FilesTellTheStory(w: World, a: Action)
    requires Enabled(w, a)
    ensures var v, s := Apply(w, a), w.sidecar;
      && (a.Begin? ==>
            var d := s.rest[0];
            && d.eventId in v.live && v.live == w.live[d.eventId := v.live[d.eventId]]
            && (d.eventId in w.live ==> v.live == w.live)
            && (d.eventId !in w.live ==> v.live[d.eventId] == Record(d, LocallySaved, [], None, None, 0)))
      && (a.Write? && Accepted(s.reply) ==>
            v.live == w.live[s.draft.eventId := s.record.(status := FileDelivered, receipt := s.reply.receipt)])
      && (a.Write? && !Accepted(s.reply) ==> v.live == w.live[s.draft.eventId := s.record])
      && (a.WriteDead? ==> v.live == w.live[s.draft.eventId := s.record.(status := FileDead)])
      && (a.Move? ==>
            v.dead == w.dead[s.draft.eventId := w.live[s.draft.eventId]] && v.live == w.live - {s.draft.eventId})
      && (a.Unlink? ==> v.live == w.live - {s.draft.eventId})
      && (a.OpWrite? ==> v.live == w.live[w.operator.eventId := w.operator.copy])
      && (a.OpRead? ==>
            && v.operator.Holding? && v.operator.eventId == a.eventId
            && v.operator.copy == w.dead[a.eventId].(
                 status := LocallySaved, requeues := w.dead[a.eventId].requeues + 1))
      && (!a.Begin? && !a.Write? && !a.WriteDead? && !a.Move? && !a.Unlink? && !a.OpWrite? ==> v.live == w.live)
      && (!a.Move? && !a.OpUnlink? ==> v.dead == w.dead)
  {
    hide IsClaim, IsNew, MarkInFlight, Finish, Requeue;
    if a.Begin? && w.sidecar.rest[0].eventId in w.live {
      assert Apply(w, a).live == w.live;
    }
  }
}
