/** What each transaction of the control plane does to the tables, said row by
    row and field by field against its caller's input, and exactly when. */
module Effects {
  import opened Common
  import opened JobState
  import opened ServerTypes
  import opened OutboxRows
  import opened Business
  import opened Accept
  import opened Dispatch
  import opened Repository

  // ----- rows -----

  function Log(b: Book, id: Id): seq<JobEvent> { if id in b.events then b.events[id] else [] }

  /** One job row is replaced and one event is appended to its log. */
  predicate JobWritten(b: Book, b': Book, id: Id, n: Job, e: JobEvent) {
    b' == Book(b.jobs[id := n], b.approvals, b.events[id := Log(b, id) + [e]])
  }

  /** One event is appended to a job's log and nothing else changes. */
  predicate EventAppended(b: Book, b': Book, id: Id, e: JobEvent) {
    b' == Book(b.jobs, b.approvals, b.events[id := Log(b, id) + [e]])
  }

  /** One unacknowledged row is added at the next sequence of the connector. */
  predicate RowAdded(c: Connector, c': Connector, body: ServerBody, correlation: Id, expiresAt: int, createdAt: int) {
    && c.lastServer + 1 in c'.server
    && var row := c'.server[c.lastServer + 1];
       && c' == c.(lastServer := c.lastServer + 1, server := c.server[c.lastServer + 1 := row])
       && row.body == body && row.correlation == correlation && row.expiresAt == expiresAt
       && row.createdAt == createdAt && !row.acknowledged
  }

  /** Only the connector `cid` changed, by one added row. */
  predicate OneRowAdded(db: Db, db': Db, cid: Id, body: ServerBody, correlation: Id, expiresAt: int, createdAt: int) {
    && cid in db.connectors && cid in db'.connectors && db'.connectors == db.connectors[cid := db'.connectors[cid]]
    && RowAdded(db.connectors[cid], db'.connectors[cid], body, correlation, expiresAt, createdAt)
  }

  lemma WriteWrites(b: Book, id: Id, n: Job, e: JobEvent)
    ensures JobWritten(b, WriteJob(b, id, n, e), id, n, e) && EventAppended(b, AppendEvent(b, id, e), id, e)
  {}

  lemma EnqueueAddsRow(c: Connector, body: ServerBody, correlation: Id, expiresAt: int, now: int, uuid: nat -> Id)
    ensures RowAdded(c, Enqueue(c, body, correlation, expiresAt, now, uuid), body, correlation, expiresAt, now)
  {}

  function Earlier(a: int, b: int): int { if a < b then a else b }

  // ----- dispatch -----

  predicate HoldsSlot(job: Job, at: int) {
    && job.expiresAt > at
    && (|| job.status in {Running, WaitingApproval, Cancelling}
        || (job.status == Dispatched && job.leaseExpiresAt.Some? && job.leaseExpiresAt.value > at))
  }

  lemma SameHolders(jobs: map<Id, Job>, owner: Id, repository: Id, at: int)
    ensures ActiveJobs(jobs, owner, repository, at)
         == set j | j in jobs && jobs[j].owner == owner && jobs[j].repository == repository && HoldsSlot(jobs[j], at)
  {
    hide ActiveAt, HoldsSlot;
    forall j | j in jobs ensures ActiveAt(jobs[j], at) <==> HoldsSlot(jobs[j], at) { SlotHolder(jobs[j], at); }
  }

  lemma SlotHolder(job: Job, at: int)
    ensures ActiveAt(job, at) <==> HoldsSlot(job, at)
  {}

  predicate FreeSlot(db: Db, owner: Id, repository: Id, at: int) {
    && repository in db.policies && db.policies[repository].owner == owner && db.policies[repository].enabled
    && |set j | j in db.book.jobs && db.book.jobs[j].owner == owner && db.book.jobs[j].repository == repository
                && HoldsSlot(db.book.jobs[j], at)| < db.policies[repository].maxConcurrency
  }

  /** The job may be offered to this connector at these times: it waits for an
      offer or its lease has run out, it is not expired, and a slot is free. */
  predicate MayOffer(db: Db, who: Identity, id: Id, t: Times) {
    && who.connector in db.connectors && db.connectors[who.connector].owner == who.owner
    && db.connectors[who.connector].lastServer < MAX_SAFE && id in db.book.jobs
    && var job := db.book.jobs[id];
       && job.owner == who.owner && job.expiresAt > t.now && job.expiresAt > t.write && job.expiresAt > t.after
       && job.revision != MAX_INT32 && job.attempt != MAX_INT32
       && (|| job.status == Queued
           || (&& job.status == Dispatched && job.lease.Some? && job.leaseExpiresAt.Some?
               && job.leaseExpiresAt.value <= t.now && job.leaseExpiresAt.value <= t.write))
       && FreeSlot(db, who.owner, job.repository, t.now)
  }

  /** A dispatch offers the job exactly when it may, and otherwise leaves everything. */
  lemma DispatchesWhenItMay(db: Db, who: Identity, choice: Id, t: Times, lease: Id, correlation: Id, uuid: nat -> Id)
    ensures var o := DispatchNext(db, who, choice, t, lease, correlation, uuid);
            && (o.Committed? && o.reply.Some? <==> MayOffer(db, who, choice, t))
            && (o.Committed? && o.reply.None? ==> o.db == db)
  {
    hide ActiveJobs, HoldsSlot, WriteJob, Enqueue;
    if choice in db.book.jobs { SameHolders(db.book.jobs, who.owner, db.book.jobs[choice].repository, t.now); }
  }

  /** What it writes: the job carries the given lease for thirty seconds, cut at
      its own expiry; row, reply and audit event name the next attempt, that
      lease and the job's repository; nothing else changes. */
  lemma DispatchWrites(db: Db, who: Identity, choice: Id, t: Times, lease: Id, correlation: Id, uuid: nat -> Id)
    requires MayOffer(db, who, choice, t)
    ensures var o := DispatchNext(db, who, choice, t, lease, correlation, uuid);
            var job := db.book.jobs[choice];
            var end := Earlier(t.write + 30_000, job.expiresAt);
            var offer := Offer(choice, job.attempt + 1, lease, job.repository);
            && o.Committed? && o.reply == Some(Delivered(db.connectors[who.connector].lastServer + 1, offer))
            && o.db == db.(clock := t.after, book := o.db.book, connectors := o.db.connectors)
            && OneRowAdded(db, o.db, who.connector, offer, correlation, end, t.now)
            && JobWritten(db.book, o.db.book, choice,
                 job.(status := Dispatched, connector := Some(who.connector), lease := Some(lease),
                      leaseExpiresAt := Some(end), revision := job.revision + 1),
                 OfferEvent(job.owner, job.repository, who.connector, job.attempt + 1, lease, end))
  {
    DispatchesWhenItMay(db, who, choice, t, lease, correlation, uuid);
    hide MayOffer, HasSlot;
  }

  /** A protocol failure is reported to its own connector in one row that names it
      and lives for a minute. */
  lemma FailureExactly(db: Db, who: Identity, detail: Id, t: Times, correlation: Id, uuid: nat -> Id)
    ensures var o := ReportFailure(db, who, detail, t, correlation, uuid);
            && (o.Committed? <==>
                  && who.connector in db.connectors && db.connectors[who.connector].owner == who.owner
                  && db.connectors[who.connector].lastServer < MAX_SAFE)
            && (o.Committed? ==>
                  var body := ErrorBody(ProtocolFailure(detail), ProtocolErrorText);
                  && o.reply == Delivered(db.connectors[who.connector].lastServer + 1, body)
                  && o.db == db.(clock := t.after, connectors := o.db.connectors)
                  && OneRowAdded(db, o.db, who.connector, body, correlation, t.after + 60_000, t.now))
  {}

  // ----- claims -----

  /** The claim is for the offer the job stands under, and everything is in time. */
  predicate ClaimFits(book: Book, who: Identity, m: ClientMessage, t: Times, durable: bool)
    requires m.body.Claim?
  {
    && m.body.claimJob in book.jobs
    && var job := book.jobs[m.body.claimJob];
       && job.owner == who.owner && job.connector == Some(who.connector) && job.status == Dispatched
       && job.lease == Some(m.body.claimLease) && m.body.claimAttempt == job.attempt + 1
       && job.attempt != MAX_INT32 && job.revision != MAX_INT32 && job.leaseExpiresAt.Some?
       && job.leaseExpiresAt.value > t.now && job.expiresAt > t.now
       && job.leaseExpiresAt.value > t.write && job.expiresAt > t.write && m.expiresAt > t.write
       && (durable ==> job.leaseExpiresAt.value > t.after && job.expiresAt > t.after)
  }

  /** The offer was withdrawn by a cancellation before it was claimed. */
  predicate ClaimWithdrawn(book: Book, who: Identity, m: ClientMessage, t: Times)
    requires m.body.Claim?
  {
    && m.body.claimJob in book.jobs
    && var job := book.jobs[m.body.claimJob];
       && job.owner == who.owner && job.connector == Some(who.connector) && job.status == Cancelled
       && job.expiresAt > t.now && job.lease == Some(m.body.claimLease) && m.body.claimAttempt == job.attempt + 1
  }

  /** Offers of this job under this lease become the cancelled tombstone; other
      rows stay. */
  ghost predicate OffersWithdrawn(c: Connector, c': Connector, job: Id, lease: Id, now: int) {
    && c' == c.(server := c'.server) && c'.server.Keys == c.server.Keys
    && forall s :: s in c.server ==>
         var r := c.server[s];
         if r.body.Offer? && r.body.offerJob == job && r.body.offerLease == lease then
           && c'.server[s].body == ErrorBody(JobCancelledCode, OfferCancelledText)
           && c'.server[s] == r.(messageId := c'.server[s].messageId, body := c'.server[s].body,
                                 expiresAt := now + 2_592_000_000)
         else c'.server[s] == r
  }

  lemma ClaimExactly(book: Book, c: Connector, who: Identity, m: ClientMessage, t: Times, durable: bool,
                     coordination: bool, uuid: nat -> Id)
    requires m.body.Claim?
    ensures var v := ClaimVerdict(book, c, who, m, t, durable, coordination, uuid);
            && (v.Applied? && !v.withdrawn <==> ClaimFits(book, who, m, t, durable))
            && (v.Applied? && v.withdrawn <==> ClaimWithdrawn(book, who, m, t))
            && (ClaimFits(book, who, m, t, durable) ==>
                  var job := book.jobs[m.body.claimJob];
                  && v.connector == c
                  && JobWritten(book, v.book, m.body.claimJob,
                                job.(status := Running, attempt := job.attempt + 1, revision := job.revision + 1),
                                ClaimEvent(who.connector, job.attempt + 1)))
            && (ClaimWithdrawn(book, who, m, t) ==>
                  v.book == book && OffersWithdrawn(c, v.connector, m.body.claimJob, m.body.claimLease, t.now))
  {
    hide HasOriginalOffer, HasExpiredOffer;
  }

  /** One audit event of the owner's job carries this lease, and no other: it is a
      dispatch to this very connector at this attempt, from the job's repository,
      whose time has run out; and the job stands under another lease by now. */
  ghost predicate RanOutOnce(book: Book, who: Identity, id: Id, attempt: nat, lease: Id, now: int) {
    && id in book.jobs && id in book.events && book.jobs[id].owner == who.owner && book.jobs[id].lease != Some(lease)
    && exists i :: 0 <= i < |book.events[id]|
         && (forall k :: 0 <= k < |book.events[id]| ==>
               (book.events[id][k].OfferEvent? && book.events[id][k].lease == lease <==> k == i))
         && var e := book.events[id][i];
            e.owner == who.owner && e.connector == who.connector && e.repository == book.jobs[id].repository
            && e.attempt == attempt && e.leaseExpiresAt <= now
  }

  lemma ExpiredOfferExactly(book: Book, who: Identity, id: Id, attempt: nat, lease: Id, now: int)
    ensures HasExpiredOffer(book, who, id, attempt, lease, now) <==> RanOutOnce(book, who, id, attempt, lease, now)
  {}

  /** The claim is for the standing offer, and a deadline stands in its way. */
  predicate MissedDeadline(book: Book, who: Identity, m: ClientMessage, t: Times)
    requires m.body.Claim?
  {
    && m.body.claimJob in book.jobs
    && var job := book.jobs[m.body.claimJob];
       && job.owner == who.owner && job.connector == Some(who.connector) && job.status == Dispatched
       && job.lease == Some(m.body.claimLease) && job.leaseExpiresAt.Some? && m.body.claimAttempt == job.attempt + 1
       && var end := Earlier(job.leaseExpiresAt.value, job.expiresAt); end <= t.now || end <= t.write || end <= t.after
  }

  /** A claim is turned down as late for an offer that ran out, under durable
      receipts, and for the standing offer when a deadline was missed. */
  lemma ClaimLate(book: Book, c: Connector, who: Identity, m: ClientMessage, t: Times, durable: bool,
                  coordination: bool, uuid: nat -> Id)
    requires m.body.Claim?
    ensures var v := ClaimVerdict(book, c, who, m, t, durable, coordination, uuid);
            var ranOut := durable
              && RanOutOnce(book, who, m.body.claimJob, m.body.claimAttempt, m.body.claimLease, t.now);
            && (v.DeadlinePassed? ==>
                  v == DeadlinePassed(ClaimRejected, true) && (ranOut || MissedDeadline(book, who, m, t)))
            && (ranOut ==> v.DeadlinePassed?)
            && (MissedDeadline(book, who, m, t) && book.jobs[m.body.claimJob].leaseExpiresAt.value <= t.now ==>
                  v.DeadlinePassed?)
  {
    hide HasOriginalOffer, HasExpiredOffer, RanOutOnce;
    ExpiredOfferExactly(book, who, m.body.claimJob, m.body.claimAttempt, m.body.claimLease, t.now);
    RanOutElsewhere(book, who, m.body.claimJob, m.body.claimAttempt, m.body.claimLease, t.now);
  }

  lemma RanOutElsewhere(book: Book, who: Identity, id: Id, attempt: nat, lease: Id, now: int)
    ensures RanOutOnce(book, who, id, attempt, lease, now) ==> id in book.jobs && book.jobs[id].lease != Some(lease)
  {}

  /** The audit event at `i` is a dispatch of this attempt, and lease, to this connector. */
  predicate Audits(e: JobEvent, who: Identity, attempt: nat, lease: Option<Id>) {
    e.OfferEvent? && e.connector == who.connector && e.attempt == attempt && (lease.Some? ==> e.lease == lease.value)
  }

  /** Exactly one audit event of the owner's job is such a dispatch, by this owner and
      from the job's own repository. */
  ghost predicate AuditedOnce(book: Book, who: Identity, id: Id, attempt: nat, lease: Option<Id>) {
    && id in book.jobs && id in book.events && book.jobs[id].owner == who.owner
    && exists i :: 0 <= i < |book.events[id]|
         && (forall k :: 0 <= k < |book.events[id]| ==> (Audits(book.events[id][k], who, attempt, lease) <==> k == i))
         && book.events[id][i].owner == who.owner && book.events[id][i].repository == book.jobs[id].repository
  }

  lemma OriginalOfferExactly(book: Book, who: Identity, id: Id, attempt: nat, lease: Option<Id>)
    ensures HasOriginalOffer(book, who, id, attempt, lease) <==> AuditedOnce(book, who, id, attempt, lease)
  {
    if id in book.events {
      var es := book.events[id];
      assert forall k :: 0 <= k < |es| ==>
               (Audits(es[k], who, attempt, lease) <==> OfferFor(es[k], who.connector, attempt, lease));
    }
  }

  /** Any other claim of the owner's job is a conflict, consumed only under
      coordination and only for an offer audited once to this connector. */
  lemma ClaimConflicts(book: Book, c: Connector, who: Identity, m: ClientMessage, t: Times, durable: bool,
                       coordination: bool, uuid: nat -> Id)
    requires m.body.Claim? && ClaimVerdict(book, c, who, m, t, durable, coordination, uuid).Conflict?
    ensures coordination && AuditedOnce(book, who, m.body.claimJob, m.body.claimAttempt, Some(m.body.claimLease))
  {
    hide HasExpiredOffer, HasOriginalOffer, AuditedOnce;
    OriginalOfferExactly(book, who, m.body.claimJob, m.body.claimAttempt, Some(m.body.claimLease));
  }

  // ----- events -----

  /** The status a word of the protocol stands for. */
  predicate Names(word: string, status: JobStatus) {
    || (status == Succeeded && word in {"succeeded", "success", "completed", "job.succeeded"})
    || (status == Failed && word in {"failed", "failure", "job.failed"})
    || (status == Cancelled && word in {"cancelled", "canceled", "job.cancelled"})
    || (status == WaitingApproval && word == "waiting_approval")
    || (status == Running && word in {"running", "resumed"})
  }

  /** A word names one status at most; a word that names none leaves the status. */
  lemma WordsName(word: string, current: JobStatus)
    ensures (exists s :: Names(word, s)) ==> Names(word, StatusFor(current, word))
    ensures (forall s :: !Names(word, s)) ==> StatusFor(current, word) == current
    ensures TerminalStatusFor(word).Some? <==> Names(word, Succeeded) || Names(word, Failed) || Names(word, Cancelled)
    ensures TerminalStatusFor(word).Some? ==> StatusFor(current, word) == TerminalStatusFor(word).value
  {
    assert StatusFor(current, word) != current ==> Names(word, StatusFor(current, word));
  }

  /** The word an event is read by: its explicit status, else its type in lower case. */
  predicate ReadBy(eventType: string, status: Option<string>, word: string) {
    if status.Some? then word == status.value
    else |word| == |eventType| && forall i :: 0 <= i < |word| ==>
           word[i] == if 'A' <= eventType[i] <= 'Z' then (eventType[i] as int + 32) as char else eventType[i]
  }

  lemma WordIsRead(eventType: string, status: Option<string>)
    ensures ReadBy(eventType, status, StatusWord(eventType, status))
  {}

  /** Deadlines read again after the write: a business deadline is a consumed
      rejection, the transport's own is not. */
  lemma NotLate(transport: int, first: int, second: int, after: int)
    ensures forall v :: AfterWrite(transport, [], after, v) == if transport > after then v else Refused(EventRefused)
    ensures forall v :: AfterWrite(transport, [first], after, v)
                     == if first <= after then DeadlinePassed(EventRejected, true)
                        else if transport > after then v else Refused(EventRefused)
    ensures forall v :: AfterWrite(transport, [first, second], after, v)
                     == if first <= after || second <= after then DeadlinePassed(EventRejected, true)
                        else if transport > after then v else Refused(EventRefused)
  {
    assert [first][0] == first && [first, second][0] == first && [first, second][1] == second;
  }

  /** A client event on a claimed job: it is written with the status its word
      names, if the job may go there, before every deadline. */
  predicate EventFits(job: Job, m: ClientMessage, next: JobStatus, t: Times)
    requires m.body.Event?
  {
    && m.body.eventAttempt == job.attempt && m.expiresAt > t.after
    && job.status in {Running, WaitingApproval, Cancelling} && job.expiresAt > t.now && job.expiresAt > t.after
    && job.revision != MAX_INT32 && (next == job.status || CanTransition(job.status, next))
  }

  lemma EventExactly(san: string -> string, book: Book, c: Connector, who: Identity, m: ClientMessage, t: Times,
                     coordination: bool)
    requires m.body.Event?
    ensures var v, id := EventVerdict(san, book, c, who, m, t, coordination), m.body.eventJob;
            var eventType := san(m.body.eventType);
            var status := if m.body.eventStatus.Some? then Some(san(m.body.eventStatus.value)) else None;
            var word, e := StatusWord(eventType, status), ClientEvent(eventType, status);
            && (v.Applied? ==> v.connector == c && !v.withdrawn && id in book.jobs
                               && book.jobs[id].owner == who.owner && book.jobs[id].connector == Some(who.connector))
            && (id in book.jobs && book.jobs[id].owner == who.owner
                && book.jobs[id].connector == Some(who.connector) ==>
                  var job := book.jobs[id];
                  if Terminal(job.status) then
                    && (v.Applied? <==> m.body.eventAttempt == job.attempt && m.expiresAt > t.after
                                        && TerminalStatusFor(word).Some?)
                    && (v.Applied? ==> EventAppended(book, v.book, id, e))
                  else
                    && (v.Applied? <==> EventFits(job, m, StatusFor(job.status, word), t))
                    && (v.Applied? ==>
                          JobWritten(book, v.book, id,
                            job.(status := StatusFor(job.status, word), revision := job.revision + 1,
                                 terminalAt := if TerminalStatusFor(word).Some? then Some(t.now)
                                               else job.terminalAt), e)))
  {
    hide StatusWord, TerminalStatusFor, StatusFor, CanTransition, AfterWrite;
    var end := if m.body.eventJob in book.jobs then book.jobs[m.body.eventJob].expiresAt else 0;
    NotLate(m.expiresAt, end, end, t.after);
  }

  // ----- approval requests -----

  predicate RequestFits(book: Book, who: Identity, m: ClientMessage, t: Times)
    requires m.body.ApprovalRequest?
  {
    && m.body.approvalJob in book.jobs && m.body.approval !in book.approvals
    && var job := book.jobs[m.body.approvalJob];
       && job.owner == who.owner && job.connector == Some(who.connector)
       && job.status in {Running, WaitingApproval} && m.body.approvalAttempt == job.attempt
       && job.revision != MAX_INT32 && m.body.approvalRevision == job.revision + 1
       && job.expiresAt > t.now && m.body.approvalExpiresAt > t.now
       && job.expiresAt > t.after && m.body.approvalExpiresAt > t.after && m.expiresAt > t.after
  }

  /** A request for approval parks the job and stores exactly what was asked. */
  lemma RequestExactly(book: Book, c: Connector, who: Identity, m: ClientMessage, t: Times, coordination: bool)
    requires m.body.ApprovalRequest?
    ensures var v := ApprovalVerdict(book, c, who, m, t, coordination);
            && (v.Applied? <==> RequestFits(book, who, m, t))
            && (v.Applied? ==>
                  var b, job := m.body, book.jobs[m.body.approvalJob];
                  && v.connector == c && !v.withdrawn
                  && v.book.jobs == book.jobs[b.approvalJob :=
                     job.(status := WaitingApproval, revision := job.revision + 1)]
                  && v.book.events == book.events[b.approvalJob :=
                       Log(book, b.approvalJob) + [ApprovalRequestedEvent(b.approval, b.approvalRevision)]]
                  && v.book.approvals == book.approvals[b.approval :=
                       Approval(b.approvalJob, b.approvalAttempt, b.approvalRevision, b.approvalFingerprint,
                                b.approvalExpiresAt, None)])
  {
    hide AfterWrite;
    var end := if m.body.approvalJob in book.jobs then book.jobs[m.body.approvalJob].expiresAt else 0;
    NotLate(m.expiresAt, end, m.body.approvalExpiresAt, t.after);
  }

  // ----- cancellation reports -----

  /** A report ends a job that is being cancelled, and is only logged for one that
      has ended; any other job it leaves. */
  lemma ReportExactly(book: Book, c: Connector, who: Identity, m: ClientMessage, t: Times, coordination: bool)
    requires m.body.CancelledReport?
    ensures var v, id := CancelledVerdict(book, c, who, m, t, coordination), m.body.cancelledJob;
            && (v.Applied? ==> v.connector == c && !v.withdrawn && id in book.jobs)
            && (v.Applied? <==>
                  && id in book.jobs && book.jobs[id].owner == who.owner
                  && book.jobs[id].connector == Some(who.connector)
                  && book.jobs[id].attempt == m.body.cancelledAttempt && m.expiresAt > t.after
                  && (|| Terminal(book.jobs[id].status)
                      || (&& book.jobs[id].status == Cancelling && book.jobs[id].expiresAt > t.now
                          && book.jobs[id].expiresAt > t.after && book.jobs[id].revision != MAX_INT32)))
            && (v.Applied? ==>
                  var job := book.jobs[id];
                  if Terminal(job.status) then EventAppended(book, v.book, id, ClientCancelledEvent)
                  else JobWritten(book, v.book, id,
                         job.(status := Cancelled, revision := job.revision + 1,
                              terminalAt := if job.terminalAt.Some? then job.terminalAt else Some(t.write)),
                         ClientCancelledEvent))
  {
    hide AfterWrite;
    var end := if m.body.cancelledJob in book.jobs then book.jobs[m.body.cancelledJob].expiresAt else 0;
    NotLate(m.expiresAt, end, end, t.after);
  }

  // ----- rejections -----

  /** Whose job it is, as the message names it. */
  predicate Bound(book: Book, who: Identity, id: Id) {
    id in book.jobs && book.jobs[id].owner == who.owner && book.jobs[id].connector == Some(who.connector)
  }

  /** Why an event is turned down: a job not bound to the connector refuses it, a
      passed deadline rejects it, an exhausted revision is a limit, and anything
      else a change of authority, consumed under coordination only. */
  lemma EventTurnedDown(san: string -> string, book: Book, c: Connector, who: Identity, m: ClientMessage, t: Times,
                        coordination: bool)
    requires m.body.Event?
    ensures var v, id := EventVerdict(san, book, c, who, m, t, coordination), m.body.eventJob;
            && (!Bound(book, who, id) ==> v == Refused(EventRefused))
            && (v.DeadlinePassed? ==> v == DeadlinePassed(EventRejected, true) && Bound(book, who, id)
                                      && (book.jobs[id].expiresAt <= t.now || book.jobs[id].expiresAt <= t.after))
            && (v.Conflict? ==>
                  && coordination && Bound(book, who, id) && v.conflictCode == EventRejected
                  && (v.text == BusinessLimitText || v.text == AuthorityChangedText)
                  && (v.text == BusinessLimitText ==> book.jobs[id].revision == MAX_INT32))
            && (coordination && Bound(book, who, id) && book.jobs[id].attempt != m.body.eventAttempt ==>
                  v == Conflict(EventRejected, AuthorityChangedText))
            && (!coordination ==> !v.Conflict?)
  {
    hide StatusWord, TerminalStatusFor, StatusFor, CanTransition, AfterWrite;
    var end := if m.body.eventJob in book.jobs then book.jobs[m.body.eventJob].expiresAt else 0;
    NotLate(m.expiresAt, end, end, t.after);
  }

  lemma RequestTurnedDown(book: Book, c: Connector, who: Identity, m: ClientMessage, t: Times, coordination: bool)
    requires m.body.ApprovalRequest?
    ensures var v, id := ApprovalVerdict(book, c, who, m, t, coordination), m.body.approvalJob;
            && (!Bound(book, who, id) ==> v == Refused(EventRefused))
            && (v.DeadlinePassed? ==>
                  && v == DeadlinePassed(EventRejected, true) && Bound(book, who, id)
                  && var end := Earlier(book.jobs[id].expiresAt, m.body.approvalExpiresAt);
                     end <= t.now || end <= t.after)
            && (v.Conflict? ==>
                  && coordination && Bound(book, who, id) && v.conflictCode == EventRejected
                  && (v.text == BusinessLimitText <==> book.jobs[id].revision == MAX_INT32
                                                       && book.jobs[id].status in {Running, WaitingApproval}
                                                       && book.jobs[id].attempt == m.body.approvalAttempt)
                  && (v.text == BusinessLimitText || v.text == AuthorityChangedText))
            && (coordination && Bound(book, who, id) && m.body.approvalRevision != book.jobs[id].revision + 1 ==>
                  v.Conflict?)
  {
    hide AfterWrite;
    var end := if m.body.approvalJob in book.jobs then book.jobs[m.body.approvalJob].expiresAt else 0;
    NotLate(m.expiresAt, end, m.body.approvalExpiresAt, t.after);
  }

  lemma ReportTurnedDown(book: Book, c: Connector, who: Identity, m: ClientMessage, t: Times, coordination: bool)
    requires m.body.CancelledReport?
    ensures var v, id := CancelledVerdict(book, c, who, m, t, coordination), m.body.cancelledJob;
            && (!Bound(book, who, id) ==> v == Refused(EventRefused))
            && (v.DeadlinePassed? ==> v == DeadlinePassed(EventRejected, true) && Bound(book, who, id)
                                      && book.jobs[id].status == Cancelling
                                      && (book.jobs[id].expiresAt <= t.now || book.jobs[id].expiresAt <= t.after))
            && (v.Conflict? ==>
                  && coordination && Bound(book, who, id) && v.conflictCode == EventRejected
                  && (v.text == BusinessLimitText || v.text == AuthorityChangedText)
                  && (v.text == BusinessLimitText ==> book.jobs[id].revision == MAX_INT32)
                  && (v.text == AuthorityChangedText ==>
                        book.jobs[id].attempt != m.body.cancelledAttempt
                        || book.jobs[id].status in {Queued, Dispatched, Running, WaitingApproval}))
  {
    hide AfterWrite;
    var end := if m.body.cancelledJob in book.jobs then book.jobs[m.body.cancelledJob].expiresAt else 0;
    NotLate(m.expiresAt, end, end, t.after);
  }

  // ----- acknowledgements -----

  /** The acknowledged row is an approval for the job as it waits now. */
  predicate Wakes(book: Book, b: ServerBody, t: Times) {
    && b.DecisionCommand? && b.decision == Approve && b.decisionJob in book.jobs
    && var job := book.jobs[b.decisionJob];
       && job.status == WaitingApproval && job.attempt == b.decisionAttempt && job.revision == b.decisionRevision
       && job.expiresAt > t.now && job.expiresAt > t.write
  }

  /** An acknowledgement marks its row and no other, and resumes the job exactly
      when the row approves it as it waits. */
  lemma AckExactly(book: Book, c: Connector, m: ClientMessage, t: Times)
    requires m.body.AckReport? && m.body.ackSequence in c.server
    ensures var v, b := AckVerdict(book, c, m, t), c.server[m.body.ackSequence].body;
            && (v.Applied? <==> !(Wakes(book, b, t) && book.jobs[b.decisionJob].revision == MAX_INT32))
            && (v.Applied? ==>
                  && !v.withdrawn
                  && v.connector == c.(server := c.server[m.body.ackSequence :=
                                                 c.server[m.body.ackSequence].(acknowledged := true)])
                  && if Wakes(book, b, t) then
                       var job := book.jobs[b.decisionJob];
                       JobWritten(book, v.book, b.decisionJob, job.(status := Running, revision := job.revision + 1),
                                  ResumedEvent(b.approval, b.decisionAttempt, b.decisionRevision))
                     else v.book == book)
  {}

  // ----- the owner's transactions -----

  /** A new request makes one queued job with what the caller asked for, living
      for a day; a repeated one makes none. */
  lemma CreateExactly(db: Db, key: CreateKey, digest: Id, repository: Id, mode: Mode, newId: Id, t: Times)
    ensures var o := CreateIdempotent(db, key, digest, repository, mode, newId, t);
            if key in db.creations then o.Committed? ==> o.db == db && o.reply == db.creations[key].job
            else
              && (o.Committed? <==> repository in db.policies && db.policies[repository].owner == key.owner)
              && (o.Committed? ==>
                    && o.reply == newId && o.db.connectors == db.connectors && o.db.policies == db.policies
                    && o.db.clock == t.after && o.db.creations == db.creations[key := CreateRecord(digest, newId)]
                    && o.db.book.approvals == db.book.approvals && o.db.book.events == db.book.events[newId := []]
                    && newId in o.db.book.jobs && o.db.book.jobs == db.book.jobs[newId := o.db.book.jobs[newId]]
                    && var job := o.db.book.jobs[newId];
                       && job.owner == key.owner && job.repository == repository && job.mode == mode
                       && job.status == Queued && job.revision == 0 && job.attempt == 0
                       && job.connector == None && job.lease == None && job.leaseExpiresAt == None
                       && job.cancelRevision == None && job.terminalAt == None
                       && job.expiresAt == t.now + 24 * 60 * 60 * 1000)
  {}

  /** The job as the owner asked to cancel it. */
  predicate MayCancel(db: Db, owner: Id, id: Id, expected: nat) {
    && id in db.book.jobs && db.book.jobs[id].owner == owner && db.book.jobs[id].revision == expected < MAX_INT32
  }

  predicate Reaches(db: Db, owner: Id, connector: Option<Id>) {
    && connector.Some? && connector.value in db.connectors && db.connectors[connector.value].owner == owner
    && db.connectors[connector.value].lastServer < MAX_SAFE
  }

  /** Cancelling a job no connector has claimed ends it at once. */
  lemma CancelUnclaimed(db: Db, owner: Id, id: Id, expected: nat, t: Times, nonce: Id, correlation: Id, uuid: nat -> Id)
    requires MayCancel(db, owner, id, expected) && db.book.jobs[id].status in {Queued, Dispatched}
    ensures var o, job := CancelAtomically(db, owner, id, expected, t, nonce, correlation, uuid), db.book.jobs[id];
            && o.Committed? && o.db == db.(clock := t.after, book := o.db.book)
            && o.reply == job.(status := Cancelled, revision := expected + 1,
                               terminalAt := if job.terminalAt.Some? then job.terminalAt else Some(t.now))
            && JobWritten(db.book, o.db.book, id, o.reply, CancelEvent(expected + 1))
  {}

  /** Cancelling a claimed job asks its connector to stop: one command names the
      job, its attempt and the revision of the cancellation, for as long as the
      job lives. It fails exactly when the connector cannot be reached or the
      job is over. */
  lemma CancelClaimed(db: Db, owner: Id, id: Id, expected: nat, t: Times, nonce: Id, correlation: Id, uuid: nat -> Id)
    requires MayCancel(db, owner, id, expected) && db.book.jobs[id].status in {Running, WaitingApproval}
    ensures var o, job := CancelAtomically(db, owner, id, expected, t, nonce, correlation, uuid), db.book.jobs[id];
            && (o.Committed? <==> Reaches(db, owner, job.connector) && job.expiresAt > t.after)
            && (o.Committed? ==>
                  && o.reply == job.(status := Cancelling, revision := expected + 1,
                                     cancelRevision := Some(expected + 1))
                  && o.db == db.(clock := t.after, book := o.db.book, connectors := o.db.connectors)
                  && JobWritten(db.book, o.db.book, id, o.reply, CancelEvent(expected + 1))
                  && OneRowAdded(db, o.db, job.connector.value, CancelCommand(id, job.attempt, expected + 1, nonce),
                                 correlation, job.expiresAt, t.now))
  {}

  /** Everything else is left as it is: an ended or cancelling job is returned,
      a foreign or missing one is not found, another revision conflicts. */
  lemma CancelLeaves(db: Db, owner: Id, id: Id, expected: nat, t: Times, nonce: Id, correlation: Id, uuid: nat -> Id)
    ensures var o := CancelAtomically(db, owner, id, expected, t, nonce, correlation, uuid);
            if id !in db.book.jobs || db.book.jobs[id].owner != owner then o == Aborted(NotFound)
            else
              var job := db.book.jobs[id];
              if job.status == Cancelling || job.status in {Succeeded, Failed, Cancelled, Expired} then
                o == Committed(db, job)
              else if job.revision != expected then o == Aborted(RevisionConflict) else true
  {}

  /** A claim outside the message protocol: under the standing live lease, and
      with the lease renewed. */
  lemma ClaimOfferExactly(db: Db, id: Id, connector: Id, attempt: nat, lease: Id, t: Times)
    ensures var o := ClaimOffer(db, id, connector, attempt, lease, t);
            && (o.Committed? && o.reply.None? ==> o.db == db)
            && (o.Committed? && o.reply.Some? <==>
                  && id in db.book.jobs && connector in db.connectors
                  && var job := db.book.jobs[id];
                     && job.status == Dispatched && job.connector == Some(connector) && job.lease == Some(lease)
                     && attempt == job.attempt + 1 && db.connectors[connector].owner == job.owner
                     && job.leaseExpiresAt.Some? && job.leaseExpiresAt.value > t.write && job.expiresAt > t.write
                     && job.revision != MAX_INT32 && job.attempt != MAX_INT32)
            && (o.Committed? && o.reply.Some? ==>
                  var job := db.book.jobs[id];
                  && o.reply == Some(job.(status := Running, attempt := job.attempt + 1, revision := job.revision + 1,
                                          leaseExpiresAt := Some(Earlier(t.write + 30_000, job.expiresAt))))
                  && o.db == db.(clock := t.after, book := o.db.book)
                  && JobWritten(db.book, o.db.book, id, o.reply.value, ClaimEvent(connector, attempt)))
  {}

  // ----- decisions -----

  /** The decision is for the approval as the caller saw it. */
  predicate Fenced(db: Db, i: DecideInput)
    requires i.approval in db.book.approvals && db.book.approvals[i.approval].job in db.book.jobs
  {
    var a := db.book.approvals[i.approval];
    var job := db.book.jobs[a.job];
    && a.revision == i.expectedRevision && job.revision == i.expectedRevision
    && (i.owner.Some? ==>
          && i.owner.value == job.owner && job.status == WaitingApproval && job.attempt == a.attempt
          && (i.expectedAttempt.Some? ==> i.expectedAttempt.value == a.attempt)
          && (i.fingerprint.Some? ==> i.fingerprint.value == a.fingerprint))
  }

  predicate InTime(db: Db, i: DecideInput, t: Times)
    requires i.approval in db.book.approvals && db.book.approvals[i.approval].job in db.book.jobs
  {
    var a := db.book.approvals[i.approval];
    var job := db.book.jobs[a.job];
    if i.owner.None? then a.expiresAt > i.callerNow
    else job.expiresAt > t.now && a.expiresAt > t.write && job.expiresAt > t.write && job.expiresAt > t.after
  }

  /** The approval ran out on the way while its job still lives: recorded as a rejection. */
  predicate RanOut(db: Db, i: DecideInput, t: Times)
    requires i.approval in db.book.approvals && db.book.approvals[i.approval].job in db.book.jobs
  {
    var a := db.book.approvals[i.approval];
    var job := db.book.jobs[a.job];
    && i.owner.Some? && job.expiresAt > t.now && (a.expiresAt <= t.write || job.expiresAt <= t.write)
    && a.expiresAt <= t.after && job.expiresAt > t.after
  }

  /** The first decision of an approval is recorded exactly when it is fenced and
      in time, or ran out on the way; it is the caller's own decision in the first
      case and a rejection reported as expired in the second. */
  lemma DecisionExactly(db: Db, i: DecideInput, t: Times, correlation: Id, uuid: nat -> Id)
    requires i.approval in db.book.approvals && db.book.approvals[i.approval].decision == None
    requires db.book.approvals[i.approval].job in db.book.jobs
    ensures var o, a := RecordDecision(db, i, t, correlation, uuid), db.book.approvals[i.approval];
            var job := db.book.jobs[a.job];
            && (o.Committed? <==>
                  && Fenced(db, i) && (InTime(db, i, t) || RanOut(db, i, t))
                  && (i.owner.Some? ==> Reaches(db, i.owner.value, job.connector)))
            && (o.Committed? ==>
                  && (if InTime(db, i, t) then o.reply == Decided(i.decision, false)
                      else o.reply == Decided(Reject, true))
                  && o.db.book.jobs == db.book.jobs
                  && o.db.book.approvals == db.book.approvals[i.approval := a.(decision := Some(o.reply.decision))]
                  && o.db == db.(clock := t.after, book := o.db.book, connectors := o.db.connectors))
  {}

  /** With an owner the decision is also logged and sent; without one it is not. */
  lemma DecisionNotifies(db: Db, i: DecideInput, t: Times, correlation: Id, uuid: nat -> Id)
    requires i.approval in db.book.approvals && db.book.approvals[i.approval].decision == None
    requires RecordDecision(db, i, t, correlation, uuid).Committed?
    ensures var o, a := RecordDecision(db, i, t, correlation, uuid), db.book.approvals[i.approval];
            && a.job in db.book.jobs
            && var job := db.book.jobs[a.job];
               if i.owner.None? then o.db.connectors == db.connectors && o.db.book.events == db.book.events
               else
                 && o.db.book.events == db.book.events[a.job :=
                      Log(db.book, a.job) + [ApprovalDecidedEvent(i.approval, o.reply.decision)]]
                 && job.connector.Some?
                 && OneRowAdded(db, o.db, job.connector.value,
                      DecisionCommand(i.approval, a.job, a.attempt, a.revision, a.fingerprint, o.reply.decision),
                      correlation, Earlier(job.expiresAt, t.after + 60_000), t.now)
  {}

  /** A decided approval is never decided again: the owner's same decision for the
      approval as it stands is confirmed, anything else is refused. */
  lemma DecidedStays(db: Db, i: DecideInput, t: Times, correlation: Id, uuid: nat -> Id)
    requires i.approval in db.book.approvals && db.book.approvals[i.approval].decision.Some?
    ensures var o, a := RecordDecision(db, i, t, correlation, uuid), db.book.approvals[i.approval];
            && (o.Committed? ==> o.db == db && o.reply == Decided(i.decision, false))
            && (o.Committed? <==>
                  && a.job in db.book.jobs && i.owner.Some? && Fenced(db, i) && a.decision == Some(i.decision)
                  && db.book.jobs[a.job].expiresAt > t.now)
  {}

  /** What is listed as pending is exactly what its owner could decide at that moment. */
  lemma PendingIsDecidable(db: Db, approval: Id, decision: Decision, now: int)
    requires approval in db.book.approvals && db.book.approvals[approval].decision == None
    requires db.book.approvals[approval].job in db.book.jobs
    ensures var a := db.book.approvals[approval];
            var i := DecideInput(approval, decision, a.revision, Some(db.book.jobs[a.job].owner), None, None, now);
            Pending(db.book, approval, now) <==> Fenced(db, i) && InTime(db, i, Times(now, now, now))
    ensures forall x, at :: Pending(db.book, x, at) ==>
              x in db.book.approvals && db.book.approvals[x].decision == None
                && db.book.approvals[x].job in db.book.jobs
  {}
}
