/** The sidecar as a program: `claim`, `_finish`, `push` and `drain` over a draft table and two directories.

    Every durable write is one step of the protocol in Outbox, so a crash between any two of them is a run of that
    protocol that stops there. What this file adds is what an uninterrupted call does. */
module OutboxAdapter {
  import opened Basics
  import opened Outbox

  /** What a POST does at the receiver, and what comes back. */
  datatype Outcome = Outcome(reply: Reply, processed: bool)

  /** The tries a push makes: it stops at an acceptance, at a refusal, or after five. */
  function Tries(net: nat -> Outcome, from: nat): (n: nat)
    requires from < MAX_ATTEMPTS
    ensures from < n <= MAX_ATTEMPTS
    decreases MAX_ATTEMPTS - from
  {
    var reply := net(from).reply;
    if Accepted(reply) || Refused(reply) || from + 1 == MAX_ATTEMPTS then from + 1 else Tries(net, from + 1)
  }

  /** The codes that decide: 202 with the word of the mother, 200 for a duplicate, and six refusals. */
  lemma WhatDecides(r: Reply)
    ensures Accepted(r) <==> (r.code == 202 && r.motherAccepted) || (r.code == 200 && r.duplicate)
    ensures Refused(r) <==>
      r.code == 400 || r.code == 401 || r.code == 403 || r.code == 404 || r.code == 409 || r.code == 413
    ensures !(Accepted(r) && Refused(r)) && (r.code == 0 || r.code >= 500 ==> !Accepted(r) && !Refused(r))
  {
  }

  /** What the last of those tries came back with decides. */
  lemma {:induction false} TriesStopAtFirst(net: nat -> Outcome, from: nat)
    requires from < 5
    ensures var n := Tries(net, from);
      && from < n <= 5
      && (forall i :: from <= i < n - 1 ==> !Accepted(net(i).reply) && !Refused(net(i).reply))
      && (Accepted(net(n - 1).reply) || Refused(net(n - 1).reply) || n == 5)
    decreases MAX_ATTEMPTS - from
  {
    var reply := net(from).reply;
    if !Accepted(reply) && !Refused(reply) && from + 1 < MAX_ATTEMPTS {
      TriesStopAtFirst(net, from + 1);
    }
  }

  /** The replies of the first `n` tries. */
  function Replies(net: nat -> Outcome, n: nat): (r: seq<Reply>)
    ensures |r| == n && forall i :: 0 <= i < n ==> r[i] == net(i).reply
  {
    if n == 0 then [] else Replies(net, n - 1) + [net(n - 1).reply]
  }

  function Copies(p: Post, n: nat): (r: seq<Post>)
    ensures |r| == n && forall q :: q in r ==> q == p
  {
    if n == 0 then [] else Copies(p, n - 1) + [p]
  }

  function PostOf(d: Draft): Post {
    Post(d.draftId, d.eventId, d.body)
  }

  /** How a push ends: the last of its tries decides. */
  function Verdict(net: nat -> Outcome): Status {
    if Accepted(net(Tries(net, 0) - 1).reply) then Delivered else DeadLetter
  }

  /** How many replies the live file of an event has noted. */
  function OnFile(live: map<Id, Record>, e: Id): nat {
    if e in live then |live[e].attempts| else 0
  }

  /** So many more posts, each with the bytes and the ids of the draft. */
  ghost predicate PostsTheSame(before: seq<Post>, posts: seq<Post>, d: Draft, n: nat) {
    && |posts| == |before| + n && before <= posts
    && forall i :: |before| <= i < |posts| ==> posts[i] == Post(d.draftId, d.eventId, d.body)
  }

  /** The row of a draft that was pushed, given how many replies its file had noted before: it carries the receipt of
      the acceptance and the number of tries, or the last refusal and the number of all replies noted. */
  ghost predicate IsSettled(row: Row, d: Draft, noted: nat, net: nat -> Outcome) {
    var n := Tries(net, 0);
    var last := net(n - 1).reply;
    && row.draft == d
    && (Accepted(last) ==>
          row.status == Delivered && row.receipt == last.receipt && row.lastError == None && row.attempts == n)
    && (!Accepted(last) ==>
          row.status == DeadLetter && row.receipt == None && row.lastError == Some(last) && row.attempts == noted + n)
  }

  /** The row of the draft is settled, every other is as it was. */
  ghost predicate RowIsSettled(
      before: map<Id, Row>, rows: map<Id, Row>, d: Draft, noted: nat, net: nat -> Outcome)
  {
    && rows.Keys == before.Keys && d.draftId in rows && IsSettled(rows[d.draftId], d, noted, net)
    && forall k :: k in rows && k != d.draftId ==> rows[k] == before[k]
  }

  /** The file of the draft is a dead letter: it has what was noted before, then every reply of this push, and counts
      its requeues on. Every other dead letter is as it was. */
  ghost predicate FileIsBuried(
      live: map<Id, Record>, before: map<Id, Record>, dead: map<Id, Record>, d: Draft, net: nat -> Outcome)
  {
    var e, n, noted := d.eventId, Tries(net, 0), OnFile(live, d.eventId);
    && e in dead && dead - {e} == before - {e}
    && dead[e].draft == d && dead[e].status == FileDead && dead[e].lastError == Some(net(n - 1).reply)
    && |dead[e].attempts| == noted + n
    && (forall i :: 0 <= i < noted ==> dead[e].attempts[i] == live[e].attempts[i])
    && (forall i :: 0 <= i < n ==> dead[e].attempts[noted + i] == net(i).reply)
    && dead[e].requeues == if e in live then live[e].requeues else 0
  }

  lemma PostsAre(before: seq<Post>, d: Draft, n: nat)
    ensures PostsTheSame(before, before + Copies(PostOf(d), n), d, n)
  {
    var copies := Copies(PostOf(d), n);
    assert forall i :: 0 <= i < n ==> copies[i] in copies;
  }

  lemma SettlesTheRow(rows: map<Id, Row>, live: map<Id, Record>, d: Draft, net: nat -> Outcome)
    ensures IsRowOf(rows, d) ==>
      var n, noted := Tries(net, 0), OnFile(live, d.eventId);
      var last := net(n - 1).reply;
      && |StartRecord(live, d).attempts + Replies(net, n)| == noted + n
      && RowIsSettled(rows,
           if Accepted(last) then Finish(rows, d.draftId, Delivered, last.receipt, None, n)
           else Finish(rows, d.draftId, DeadLetter, None, Some(last), noted + n),
           d, noted, net)
  {
  }

  lemma BuriesTheFile(live: map<Id, Record>, dead: map<Id, Record>, d: Draft, net: nat -> Outcome)
    requires d.eventId in live ==> live[d.eventId].draft == d
    ensures var n, first := Tries(net, 0), StartRecord(live, d);
      var file := first.(
        attempts := first.attempts + Replies(net, n), status := FileDead, lastError := Some(net(n - 1).reply));
      FileIsBuried(live, dead, dead[d.eventId := file], d, net)
  {
    hide Tries, Replies, Accepted, Refused;
    var n, first := Tries(net, 0), StartRecord(live, d);
    var noted := OnFile(live, d.eventId);
    assert |first.attempts| == noted && forall i :: 0 <= i < noted ==> first.attempts[i] == live[d.eventId].attempts[i];
    hide StartRecord, OnFile;
  }

  /** The drafts still to push. */
  function Rest(s: Sidecar): seq<Draft> {
    if s.Idle? then [] else s.rest
  }

  function AfterTry(rest: seq<Draft>, d: Draft, record: Record, tries: nat, reply: Reply): Sidecar {
    if Accepted(reply) then Answered(rest, d, record, tries, reply)
    else if Refused(reply) || tries >= MAX_ATTEMPTS then Lost(rest, d, record.(lastError := Some(reply)))
    else Trying(rest, d, record, tries)
  }

  /** Exactly the dead row of this event is pending again, without an error; it keeps its attempts. */
  ghost predicate IsRequeued(before: map<Id, Row>, rows: map<Id, Row>, e: Id) {
    && rows.Keys == before.Keys
    && forall k :: k in rows ==>
         if before[k].draft.eventId == e && before[k].status == DeadLetter
         then rows[k] == before[k].(status := Pending, lastError := None) else rows[k] == before[k]
  }

  lemma RequeueIs(rows: map<Id, Row>, e: Id)
    ensures IsRequeued(rows, Requeue(rows, e), e)
  {
  }

  class Adapter {
    var rows: map<Id, Row>
    var live: map<Id, Record>
    var dead: map<Id, Record>
    /** The whole system, of which the fields above are the sidecar's view. */
    ghost var world: World

    ghost predicate Valid()
      reads this
    {
      world.rows == rows && world.live == live && world.dead == dead && Reachable(world)
    }

    /** The durable write just made is a step of the protocol. */
    ghost method Step(a: Action)
      requires Reachable(world) && Enabled(world, a)
      modifies `world
      ensures Reachable(world) && world == Apply(old(world), a)
    {
      ReachableStep(world, a);
      world := Apply(world, a);
    }

    /** The insert of `submit_retrospective`, in the app: the ids are new and the body is frozen. */
    method Submit(d: Draft)
      requires Valid() && IsNew(rows, d)
      modifies this
      ensures Valid() && rows == old(rows)[d.draftId := Row(d, Pending, 0, None, None)]
      ensures live == old(live) && dead == old(dead) && world.sidecar == old(world.sidecar)
      ensures world.operator == old(world.operator)
    {
      rows := rows[d.draftId := Row(d, Pending, 0, None, None)];
      Step(Action.Submit(d));
    }

    /** The first half of `requeue_one`: the record, marked as saved again, is written live before the dead one goes. */
    method Restore(e: Id)
      requires Valid() && world.operator.Away? && e in dead
      modifies this
      ensures Valid() && world.operator == Removed(e) && world.sidecar == old(world.sidecar)
      ensures world.posts == old(world.posts)
      ensures rows == old(rows) && dead == old(dead) - {e}
      ensures live == old(live)[e := old(dead)[e].(status := LocallySaved, requeues := old(dead)[e].requeues + 1)]
    {
      hide Reachable;
      var copy := dead[e].(status := LocallySaved, requeues := dead[e].requeues + 1);
      Step(OpRead(e));
      live := live[e := copy];
      Step(OpWrite);
      dead := dead - {e};
      Step(OpUnlink);
    }

    /** `requeue_one`, run to its end by the operator: the record is live again, with its attempts, and a dead row is
        pending. Without a database the row stays dead. */
    method RequeueOne(e: Id, database: bool) returns (requeued: bool)
      requires Valid() && world.operator.Away?
      modifies this
      ensures Valid() && world.operator.Away? && world.sidecar == old(world.sidecar) && world.posts == old(world.posts)
      ensures requeued <==> e in old(dead)
      ensures !requeued ==> rows == old(rows) && live == old(live) && dead == old(dead)
      ensures requeued ==>
        && live == old(live)[e := old(dead)[e].(status := LocallySaved, requeues := old(dead)[e].requeues + 1)]
        && dead == old(dead) - {e}
        && (!database ==> rows == old(rows))
        && (database ==> IsRequeued(old(rows), rows, e))
    {
      hide Reachable, Requeue, IsRequeued;
      if e !in dead {
        return false;
      }
      Restore(e);
      if database {
        RequeueIs(rows, e);
        rows := Requeue(rows, e);
        Step(OpUpdate);
      } else {
        Step(OpStop);
      }
      return true;
    }

    /** Every pending draft is now in flight, and every draft in flight is in the queue, by creation time. */
    method Claim() returns (queue: seq<Draft>)
      requires Valid() && world.sidecar.Idle?
      modifies this
      ensures Valid() && IsClaim(old(rows), queue)
      ensures rows == MarkInFlight(old(rows)) && live == old(live) && dead == old(dead)
      ensures rows.Keys == old(rows).Keys
      ensures forall k :: k in rows ==>
        rows[k] == if old(rows)[k].status == Pending then old(rows)[k].(status := InFlight) else old(rows)[k]
      ensures world.sidecar == Draining(queue) && world.posts == old(world.posts)
    {
      queue := [];
      var keys := ClaimableKeys(rows);
      ghost var done := {};
      ReachableIsOk(world);
      while keys != {}
        invariant done !! keys && done + keys == ClaimableKeys(rows)
        invariant Selects(rows, done, queue)
        invariant Valid() && world == old(world)
        decreases keys
      {
        var k :| k in keys;
        SelectOneMore(rows, done, queue, k);
        queue := InsertByTime(queue, rows[k].draft);
        keys, done := keys - {k}, done + {k};
      }
      assert done == ClaimableKeys(rows);
      SelectionIsClaim(rows, queue);
      rows := MarkInFlight(rows);
      Step(Action.Claim(queue));
    }

    /** The file that is there, or a new one, is written back before the first try. */
    method Open(d: Draft) returns (record: Record)
      requires Valid() && world.sidecar.Draining? && world.sidecar.rest != [] && world.sidecar.rest[0] == d
      modifies this
      ensures Valid() && record == StartRecord(old(live), d)
      ensures rows == old(rows) && dead == old(dead) && live == old(live)[d.eventId := record]
      ensures world.posts == old(world.posts) && world.sidecar == Trying(old(world.sidecar.rest)[1..], d, record, 0)
      ensures IsRowOf(rows, d)
    {
      record := StartRecord(live, d);
      ReachableIsOk(world);
      assert InFlightRow(rows, d);
      live := live[d.eventId := record];
      Step(Begin);
    }

    /** One POST. */
    method Send(d: Draft, record: Record, attempt: nat, o: Outcome) returns (noted: Record)
      requires Valid()
      requires world.sidecar.Trying? && world.sidecar == Trying(world.sidecar.rest, d, record, attempt)
      modifies `world
      ensures Valid() && noted == record.(attempts := record.attempts + [o.reply])
      ensures world.posts == old(world.posts) + [PostOf(d)]
      ensures world.sidecar == Answered(old(world.sidecar.rest), d, noted, attempt + 1, o.reply)
    {
      noted := record.(attempts := record.attempts + [o.reply]);
      Step(Action.Send(o.reply, o.processed));
    }

    /** The branch of an accepted POST. */
    method Settle(d: Draft, record: Record, tries: nat, reply: Reply)
      requires Valid() && Accepted(reply)
      requires world.sidecar.Answered? && world.sidecar == Answered(world.sidecar.rest, d, record, tries, reply)
      modifies this
      ensures Valid() && world.sidecar == Draining(old(world.sidecar.rest)) && world.posts == old(world.posts)
      ensures rows == Finish(old(rows), d.draftId, Delivered, reply.receipt, None, tries)
      ensures live == old(live) - {d.eventId} && dead == old(dead)
    {
      var e := d.eventId;
      var won := record.(status := FileDelivered, receipt := reply.receipt);
      live := live[e := won];
      Step(Write);
      rows := Finish(rows, d.draftId, Delivered, won.receipt, None, tries);
      Step(FinishDelivered);
      live := live - {e};
      Step(Unlink);
    }

    /** The record of a try that was not accepted is written before anything else happens. */
    method Note(d: Draft, record: Record, tries: nat, reply: Reply) returns (lost: bool)
      requires Valid() && !Accepted(reply)
      requires world.sidecar.Answered? && world.sidecar == Answered(world.sidecar.rest, d, record, tries, reply)
      modifies this
      ensures Valid() && world.posts == old(world.posts)
      ensures rows == old(rows) && dead == old(dead) && live == old(live)[d.eventId := record]
      ensures lost == (Refused(reply) || tries >= MAX_ATTEMPTS)
      ensures world.sidecar ==
        if lost then Lost(old(world.sidecar.rest), d, record.(lastError := Some(reply)))
        else Trying(old(world.sidecar.rest), d, record, tries)
    {
      live := live[d.eventId := record];
      lost := Refused(reply) || tries >= MAX_ATTEMPTS;
      Step(Write);
    }

    /** A push that was never accepted moves its record to the dead-letter directory. */
    method MoveToDead(d: Draft, record: Record)
      requires Valid() && world.sidecar.Lost? && world.sidecar == Lost(world.sidecar.rest, d, record)
      modifies this
      ensures Valid() && rows == old(rows) && world.posts == old(world.posts)
      ensures world.sidecar == Buried(old(world.sidecar.rest), d, record.(status := FileDead))
      ensures live == old(live) - {d.eventId} && dead == old(dead)[d.eventId := record.(status := FileDead)]
    {
      var e := d.eventId;
      var dying := record.(status := FileDead);
      live := live[e := dying];
      Step(WriteDead);
      dead, live := dead[e := dying], live - {e};
      Step(Move);
    }

    /** The end of a push that was never accepted. */
    method Bury(d: Draft, record: Record)
      requires Valid() && world.sidecar.Lost? && world.sidecar == Lost(world.sidecar.rest, d, record)
      modifies this
      ensures Valid() && world.sidecar == Draining(old(world.sidecar.rest)) && world.posts == old(world.posts)
      ensures rows == Finish(old(rows), d.draftId, DeadLetter, None, record.lastError, |record.attempts|)
      ensures live == old(live) - {d.eventId} && dead == old(dead)[d.eventId := record.(status := FileDead)]
    {
      MoveToDead(d, record);
      rows := Finish(rows, d.draftId, DeadLetter, None, record.lastError, |record.attempts|);
      Step(FinishDead);
    }

    /** One try: a POST and, unless it was accepted, the record of it. */
    method Try(d: Draft, record: Record, attempt: nat, o: Outcome) returns (noted: Record, decided: bool)
      requires Valid()
      requires world.sidecar.Trying? && world.sidecar == Trying(world.sidecar.rest, d, record, attempt)
      modifies this
      ensures Valid() && noted == record.(attempts := record.attempts + [o.reply])
      ensures rows == old(rows) && dead == old(dead) && live - {d.eventId} == old(live) - {d.eventId}
      ensures world.posts == old(world.posts) + [PostOf(d)]
      ensures decided == (Accepted(o.reply) || Refused(o.reply) || attempt + 1 >= MAX_ATTEMPTS)
      ensures world.sidecar == AfterTry(old(world.sidecar.rest), d, noted, attempt + 1, o.reply)
    {
      noted := Send(d, record, attempt, o);
      if Accepted(o.reply) {
        decided := true;
      } else {
        decided := Note(d, noted, attempt + 1, o.reply);
      }
    }

    /** The retry loop: it ends with the reply that decides. */
    method Retry(d: Draft, first: Record, net: nat -> Outcome) returns (tries: nat, record: Record)
      requires Valid()
      requires world.sidecar.Trying? && world.sidecar == Trying(world.sidecar.rest, d, first, 0)
      modifies this
      ensures Valid() && tries == Tries(net, 0) && record == first.(attempts := first.attempts + Replies(net, tries))
      ensures world.posts == old(world.posts) + Copies(PostOf(d), tries)
      ensures rows == old(rows) && dead == old(dead) && live - {d.eventId} == old(live) - {d.eventId}
      ensures world.sidecar == AfterTry(old(world.sidecar.rest), d, record, tries, net(tries - 1).reply)
      ensures !world.sidecar.Trying?
    {
      hide Reachable;
      ghost var rest := world.sidecar.rest;
      record := first;
      tries := 0;
      while true
        invariant tries < MAX_ATTEMPTS && Tries(net, 0) == Tries(net, tries)
        invariant Valid() && world.sidecar == Trying(rest, d, record, tries)
        invariant rows == old(rows) && dead == old(dead) && live - {d.eventId} == old(live) - {d.eventId}
        invariant record == first.(attempts := first.attempts + Replies(net, tries))
        invariant world.posts == old(world.posts) + Copies(PostOf(d), tries)
        decreases MAX_ATTEMPTS - tries
      {
        var decided;
        record, decided := Try(d, record, tries, net(tries));
        tries := tries + 1;
        if decided {
          return;
        }
      }
    }

    /** What follows the deciding reply. */
    method Conclude(d: Draft, record: Record, tries: nat, reply: Reply) returns (outcome: Status)
      requires Valid() && world.sidecar == AfterTry(Rest(world.sidecar), d, record, tries, reply)
      requires !world.sidecar.Trying?
      modifies this
      ensures Valid() && world.sidecar == Draining(Rest(old(world.sidecar))) && world.posts == old(world.posts)
      ensures outcome == (if Accepted(reply) then Delivered else DeadLetter)
      ensures rows ==
        if Accepted(reply) then Finish(old(rows), d.draftId, Delivered, reply.receipt, None, tries)
        else Finish(old(rows), d.draftId, DeadLetter, None, Some(reply), |record.attempts|)
      ensures live == old(live) - {d.eventId}
      ensures dead ==
        if Accepted(reply) then old(dead)
        else old(dead)[d.eventId := record.(status := FileDead, lastError := Some(reply))]
    {
      if Accepted(reply) {
        Settle(d, record, tries, reply);
        outcome := Delivered;
      } else {
        Bury(d, record.(lastError := Some(reply)));
        outcome := DeadLetter;
      }
    }

    /** The body of `push`: the file is opened, the POST is tried, and the deciding reply is carried out. */
    method Deliver(d: Draft, net: nat -> Outcome) returns (outcome: Status)
      requires Valid() && world.sidecar.Draining? && world.sidecar.rest != [] && world.sidecar.rest[0] == d
      modifies this
      ensures Valid() && world.sidecar == Draining(old(world.sidecar.rest)[1..]) && IsRowOf(old(rows), d)
      ensures world.posts == old(world.posts) + Copies(PostOf(d), Tries(net, 0)) && live == old(live) - {d.eventId}
      ensures var n, first := Tries(net, 0), StartRecord(old(live), d);
        var last, attempts := net(n - 1).reply, first.attempts + Replies(net, n);
        if Accepted(last) then
          && outcome == Delivered && dead == old(dead)
          && rows == Finish(old(rows), d.draftId, Delivered, last.receipt, None, n)
        else
          && outcome == DeadLetter && rows == Finish(old(rows), d.draftId, DeadLetter, None, Some(last), |attempts|)
          && dead == old(dead)[
               d.eventId := first.(attempts := attempts, status := FileDead, lastError := Some(last))]
    {
      hide Reachable, Replies, Copies, Finish;
      var first := Open(d);
      ghost var saved := live;
      var tries, record := Retry(d, first, net);
      assert saved - {d.eventId} == old(live) - {d.eventId};
      outcome := Conclude(d, record, tries, net(tries - 1).reply);
    }

    /** Pushes the next draft. It is posted until the receiver accepts or refuses it, at most five times, always with
        the same bytes; then its row and its file say which it was, and what came back. */
    method Push(d: Draft, net: nat -> Outcome) returns (outcome: Status)
      requires Valid() && world.sidecar.Draining? && world.sidecar.rest != [] && world.sidecar.rest[0] == d
      modifies this
      ensures Valid() && world.sidecar == Draining(old(world.sidecar.rest)[1..])
      ensures outcome == (if Accepted(net(Tries(net, 0) - 1).reply) then Delivered else DeadLetter)
      ensures PostsTheSame(old(world.posts), world.posts, d, Tries(net, 0)) && 1 <= Tries(net, 0) <= 5
      ensures IsRowOf(old(rows), d) && RowIsSettled(old(rows), rows, d, OnFile(old(live), d.eventId), net)
      ensures live == old(live) - {d.eventId}
      ensures if outcome == Delivered then dead == old(dead) else FileIsBuried(old(live), old(dead), dead, d, net)
    {
      hide Reachable, Replies, Tries, StartRecord, Copies, PostsTheSame, RowIsSettled, FileIsBuried, Finish, OnFile;
      FileIsOfDraft(world, d);
      SettlesTheRow(rows, live, d, net);
      BuriesTheFile(live, dead, d, net);
      PostsAre(world.posts, d, Tries(net, 0));
      outcome := Deliver(d, net);
    }

    /** The push of draft `i` of the claimed ones. */
    method PushAt(drafts: seq<Draft>, i: nat, net: Draft -> nat -> Outcome, ghost before: map<Id, Row>,
                  ghost files: map<Id, Record>) returns (outcome: Status)
      requires i < |drafts| && Valid() && world.sidecar == Draining(drafts[i..])
      requires Progress(before, files, rows, drafts[..i], net) && FilesAhead(files, live, drafts[i..])
      requires DistinctDrafts(drafts)
      modifies this
      ensures Valid() && world.sidecar == Draining(drafts[i + 1..])
      ensures Progress(before, files, rows, drafts[..i + 1], net) && FilesAhead(files, live, drafts[i + 1..])
      ensures outcome == Verdict(net(drafts[i]))
    {
      hide Reachable, Tries, PostsTheSame, FileIsBuried, RowIsSettled, FilesAhead, Progress;
      ghost var was, queue := rows, drafts[i..];
      assert queue[0] == drafts[i] && queue[1..] == drafts[i + 1..];
      QueuedEventsDiffer(world, queue);
      FilesStayAhead(files, live, queue);
      outcome := Push(drafts[i], net(drafts[i]));
      ProgressStep(before, files, was, rows, drafts, i, net);
    }

    method PushAll(drafts: seq<Draft>, net: Draft -> nat -> Outcome) returns (delivered: nat, deadLetter: nat)
      requires Valid() && world.sidecar == Draining(drafts)
      modifies this
      ensures Valid() && world.sidecar == Draining([]) && Progress(old(rows), old(live), rows, drafts, net)
      ensures delivered == Wins(drafts, net) && delivered + deadLetter == |drafts|
    {
      hide Reachable, Progress, Wins, FilesAhead, DistinctDrafts;
      NoneYet(rows, live, drafts, net);
      ReachableIsOk(world);
      QueueIsDistinct(world);
      delivered, deadLetter := 0, 0;
      var i := 0;
      assert drafts[i..] == drafts;
      while i < |drafts|
        invariant i <= |drafts| && Valid() && world.sidecar == Draining(drafts[i..])
        invariant Progress(old(rows), old(live), rows, drafts[..i], net) && FilesAhead(old(live), live, drafts[i..])
        invariant delivered == Wins(drafts[..i], net) && delivered + deadLetter == i
      {
        var outcome := PushAt(drafts, i, net, old(rows), old(live));
        WinsStep(drafts, i, net);
        if outcome == Delivered { delivered := delivered + 1; } else { deadLetter := deadLetter + 1; }
        i := i + 1;
      }
      assert drafts[..i] == drafts;
    }

    /** Claims every draft that is not settled and pushes each: uninterrupted, it leaves nothing pending or in flight,
        and it touches no draft that was settled before. */
    method Drain(net: Draft -> nat -> Outcome) returns (delivered: nat, deadLetter: nat, ghost queue: seq<Draft>)
      requires Valid() && world.sidecar.Idle?
      modifies this
      ensures Valid() && world.sidecar.Idle? && IsClaim(old(rows), queue)
      ensures Progress(MarkInFlight(old(rows)), old(live), rows, queue, net)
      ensures delivered == Wins(queue, net) && delivered + deadLetter == |queue|
    {
      var drafts := Claim();
      queue := drafts;
      delivered, deadLetter := PushAll(drafts, net);
      Step(DrainDone);
    }
  }

  // ---------------------------------------------------------------- the files of a queue

  /** The live file of the next draft, if there is one, is that draft's own. */
  lemma FileIsOfDraft(w: World, d: Draft)
    requires Reachable(w) && w.sidecar.Draining? && w.sidecar.rest != [] && w.sidecar.rest[0] == d
    ensures d.eventId in w.live ==> w.live[d.eventId].draft == d
  {
    ReachableIsOk(w);
    assert InFlightRow(w.rows, d);
    if d.eventId in w.live {
      assert Belongs(w.rows, d.eventId, w.live[d.eventId]);
    }
  }

  lemma QueueIsDistinct(w: World)
    requires Inv(w) && w.sidecar.Draining?
    ensures DistinctDrafts(w.sidecar.rest)
  {
  }

  lemma QueuedEventsDiffer(w: World, queue: seq<Draft>)
    requires Reachable(w) && w.sidecar == Draining(queue)
    ensures forall i, j :: 0 <= i < j < |queue| ==> queue[i].eventId != queue[j].eventId
  {
    ReachableIsOk(w);
    forall i, j | 0 <= i < j < |queue| ensures queue[i].eventId != queue[j].eventId {
      assert InFlightRow(w.rows, queue[i]) && InFlightRow(w.rows, queue[j]);
      assert queue[i].draftId != queue[j].draftId;
    }
  }

  /** The drafts still to push have the files they had. */
  ghost predicate FilesAhead(files: map<Id, Record>, live: map<Id, Record>, queue: seq<Draft>) {
    forall d :: d in queue ==>
      (d.eventId in live <==> d.eventId in files) && (d.eventId in files ==> live[d.eventId] == files[d.eventId])
  }

  lemma FilesStayAhead(files: map<Id, Record>, live: map<Id, Record>, queue: seq<Draft>)
    requires FilesAhead(files, live, queue) && queue != []
    requires forall i, j :: 0 <= i < j < |queue| ==> queue[i].eventId != queue[j].eventId
    ensures FilesAhead(files, live - {queue[0].eventId}, queue[1..])
    ensures OnFile(live, queue[0].eventId) == OnFile(files, queue[0].eventId)
  {
    forall d | d in queue[1..] ensures d in queue && d.eventId != queue[0].eventId {
      var i :| 0 <= i < |queue| - 1 && queue[1..][i] == d;
      assert queue[i + 1] == d;
    }
    assert queue[0] in queue;
  }

  // ---------------------------------------------------------------- what a drain leaves

  /** Drained rows are settled by what their own receiver answered, every other row is untouched. */
  ghost predicate Progress(
      before: map<Id, Row>, files: map<Id, Record>, rows: map<Id, Row>, done: seq<Draft>, net: Draft -> nat -> Outcome)
  {
    && rows.Keys == before.Keys
    && (forall d :: d in done ==>
          d.draftId in rows && IsSettled(rows[d.draftId], d, OnFile(files, d.eventId), net(d)))
    && (forall k :: k in rows ==> rows[k] == before[k] || (rows[k].draft in done && rows[k].draft == before[k].draft))
  }

  function Wins(queue: seq<Draft>, net: Draft -> nat -> Outcome): nat {
    if queue == [] then 0
    else Wins(queue[..|queue| - 1], net) + if Verdict(net(queue[|queue| - 1])) == Delivered then 1 else 0
  }

  lemma NoneYet(rows: map<Id, Row>, live: map<Id, Record>, queue: seq<Draft>, net: Draft -> nat -> Outcome)
    ensures Progress(rows, live, rows, queue[..0], net) && FilesAhead(live, live, queue) && Wins(queue[..0], net) == 0
  {
  }

  lemma WinsStep(queue: seq<Draft>, i: nat, net: Draft -> nat -> Outcome)
    requires i < |queue|
    ensures Wins(queue[..i + 1], net) == Wins(queue[..i], net) + if Verdict(net(queue[i])) == Delivered then 1 else 0
  {
    assert queue[..i + 1][..i] == queue[..i];
  }

  lemma ProgressStep(
      before: map<Id, Row>, files: map<Id, Record>, rows: map<Id, Row>, later: map<Id, Row>, queue: seq<Draft>, i: nat,
      net: Draft -> nat -> Outcome)
    requires i < |queue| && Progress(before, files, rows, queue[..i], net) && DistinctDrafts(queue)
    requires IsRowOf(rows, queue[i])
    requires RowIsSettled(rows, later, queue[i], OnFile(files, queue[i].eventId), net(queue[i]))
    ensures Progress(before, files, later, queue[..i + 1], net)
  {
    var d := queue[i];
    assert queue[..i + 1] == queue[..i] + [d];
    forall x | x in queue[..i] ensures later[x.draftId] == rows[x.draftId] {
      var j :| 0 <= j < i && queue[j] == x;
    }
    hide DistinctDrafts;
  }

  /** Nothing is left pending or in flight: every open draft is settled by the last of its own replies, with its receipt
      or its error and the number of its tries, and what was settled before is as it was. */
  lemma DrainSettlesEveryDraft(
      was: map<Id, Row>, files: map<Id, Record>, rows: map<Id, Row>, queue: seq<Draft>, net: Draft -> nat -> Outcome,
      k: Id)
    requires IsClaim(was, queue) && Progress(MarkInFlight(was), files, rows, queue, net)
    requires forall l :: l in was ==> was[l].draft.draftId == l
    ensures rows.Keys == was.Keys
    ensures k in was ==> rows[k].draft == was[k].draft
    ensures k in was && was[k].status != Pending && was[k].status != InFlight ==> rows[k] == was[k]
    ensures k in was && (was[k].status == Pending || was[k].status == InFlight) ==>
      var d := was[k].draft;
      var n := Tries(net(d), 0);
      var last := net(d)(n - 1).reply;
      if Accepted(last) then
        && rows[k].status == Delivered && rows[k].receipt == last.receipt && rows[k].lastError == None
        && rows[k].attempts == n
      else
        && rows[k].status == DeadLetter && rows[k].receipt == None && rows[k].lastError == Some(last)
        && rows[k].attempts == OnFile(files, d.eventId) + n
  {
    if k in was {
      assert k in MarkInFlight(was) && MarkInFlight(was)[k].draft == was[k].draft;
      if !Claimable(was[k]) {
        assert MarkInFlight(was)[k] == was[k];
      } else {
        assert was[k].draft in queue;
      }
    }
  }
}
