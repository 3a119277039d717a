/** What one transaction may do to the business tables, stated once and proved
    of every operation: the vocabulary of all the whole-run theorems. */
module Moves {
  import opened Common
  import opened JobState
  import opened ServerTypes
  import opened OutboxRows
  import opened Business
  import opened Accept
  import opened Dispatch
  import opened Repository

  // ----- one job -----

  /** queued -> dispatched, or an expired offer handed out again. */
  predicate OfferMove(o: Job, n: Job, t: Times) {
    && (o.status.Queued? || (o.status.Dispatched? && o.leaseExpiresAt.Some? && o.leaseExpiresAt.value <= t.after))
    && n.connector.Some? && n.lease.Some? && n.leaseExpiresAt.Some?
    && n == o.(status := Dispatched, connector := n.connector, lease := n.lease,
               leaseExpiresAt := n.leaseExpiresAt, revision := o.revision + 1)
  }

  /** dispatched -> running under a lease that is live at the write. */
  predicate ClaimMove(o: Job, n: Job, t: Times) {
    && o.status.Dispatched? && o.leaseExpiresAt.Some? && o.leaseExpiresAt.value > t.write && o.expiresAt > t.write
    && n.leaseExpiresAt.Some?
    && n == o.(status := Running, attempt := o.attempt + 1, revision := o.revision + 1,
               leaseExpiresAt := n.leaseExpiresAt)
  }

  /** A claimed job reports progress, waits, resumes or ends. */
  predicate ProgressMove(o: Job, n: Job) {
    && Claimed(o.status) && (n.status == o.status || CanTransition(o.status, n.status)) && !n.status.Expired?
    && (n.status.Cancelling? ==> o.status.Cancelling?)
    && n == o.(status := n.status, revision := o.revision + 1,
               terminalAt := if Terminal(n.status) then n.terminalAt else o.terminalAt)
    && (Terminal(n.status) ==> n.terminalAt.Some?)
  }

  predicate CancelMove(o: Job, n: Job) {
    || ((o.status.Queued? || o.status.Dispatched?) && n.terminalAt.Some?
        && n == o.(status := Cancelled, revision := o.revision + 1, terminalAt := n.terminalAt))
    || ((o.status.Running? || o.status.WaitingApproval?)
        && n == o.(status := Cancelling, revision := o.revision + 1, cancelRevision := Some(o.revision + 1)))
  }

  /** Every move of a job other than being offered. */
  predicate JobMove(o: Job, n: Job, t: Times) {
    n == o || (o.revision < MAX_INT32 && (ClaimMove(o, n, t) || ProgressMove(o, n) || CancelMove(o, n)))
  }

  // ----- the tables -----

  predicate ApprovalMove(o: Approval, n: Approval) {
    n == o || (o.decision.None? && n.decision.Some? && n == o.(decision := n.decision))
  }

  predicate NewJob(n: Job) {
    && n.status.Queued? && n.revision == 0 && n.cancelRevision.None? && n.attempt == 0
    && n.connector.None? && n.lease.None? && n.leaseExpiresAt.None? && n.terminalAt.None?
  }

  predicate JobsMove(b: map<Id, Job>, b': map<Id, Job>, t: Times, offered: Option<Id>) {
    && b.Keys <= b'.Keys
    && (forall j :: j in b' && j !in b ==> NewJob(b'[j]))
    && (forall j :: j in b ==>
          if offered == Some(j) then b[j].revision < MAX_INT32 && OfferMove(b[j], b'[j], t)
          else JobMove(b[j], b'[j], t))
    && (offered.Some? ==> offered.value in b)
  }

  predicate EventsMove(b: map<Id, seq<JobEvent>>, b': map<Id, seq<JobEvent>>) {
    && b.Keys <= b'.Keys
    && (forall j :: j in b ==> |b[j]| <= |b'[j]| <= |b[j]| + 1 && b'[j][..|b[j]|] == b[j])
    && (forall j :: j in b' && j !in b ==> b'[j] == [])
  }

  /** The approval `a` was inserted by the move that raised its job's revision. */
  predicate NewApproval(b: Book, b': Book, a: Approval) {
    && a.decision.None? && a.job in b.jobs && a.job in b'.jobs
    && Claimed(b.jobs[a.job].status) && b'.jobs[a.job].status.WaitingApproval?
    && a.attempt == b.jobs[a.job].attempt
    && a.revision == b.jobs[a.job].revision + 1 == b'.jobs[a.job].revision
  }

  predicate ApprovalsMove(b: Book, b': Book) {
    && b.approvals.Keys <= b'.approvals.Keys
    && (forall a :: a in b.approvals ==> ApprovalMove(b.approvals[a], b'.approvals[a]))
    && (forall a :: a in b'.approvals && a !in b.approvals ==> NewApproval(b, b', b'.approvals[a]))
    && (forall a, a' :: a in b'.approvals && a !in b.approvals && a' in b'.approvals && a' !in b.approvals ==> a == a')
  }

  /** Job events exist exactly for the jobs. */
  predicate EventsKeyed(b: Book) { b.events.Keys == b.jobs.Keys }

  predicate BookMove(b: Book, b': Book, t: Times, offered: Option<Id>) {
    JobsMove(b.jobs, b'.jobs, t, offered) && EventsMove(b.events, b'.events) && ApprovalsMove(b, b') && EventsKeyed(b')
  }

  /** A move that adds no job. */
  predicate Rewrites(b: Book, b': Book, t: Times, offered: Option<Id>) {
    BookMove(b, b', t, offered) && b'.jobs.Keys == b.jobs.Keys
  }

  /** The job belongs to the owner of its repository. */
  predicate OwnedBy(policies: map<Id, Policy>, j: Job) {
    j.repository in policies && policies[j.repository].owner == j.owner
  }

  /** A whole transaction: a move of the tables, and time that only advances. */
  predicate DbMove(db: Db, db': Db, t: Times, offered: Option<Id>) {
    && BookMove(db.book, db'.book, t, offered)
    && db'.policies == db.policies
    && (forall j :: j in db'.book.jobs && j !in db.book.jobs ==> OwnedBy(db.policies, db'.book.jobs[j]))
    && ((db'.book == db.book && db'.clock == db.clock) || db'.clock == t.after)
  }

  // ----- every operation is such a move -----

  lemma IdleMoves(b: Book, t: Times)
    requires EventsKeyed(b)
    ensures Rewrites(b, b, t, None)
  {}

  lemma AppendMoves(b: Book, id: Id, e: JobEvent, t: Times)
    requires EventsKeyed(b) && id in b.jobs
    ensures Rewrites(b, AppendEvent(b, id, e), t, None)
  {}

  lemma WriteMoves(b: Book, id: Id, n: Job, e: JobEvent, t: Times, offered: Option<Id>)
    requires EventsKeyed(b) && id in b.jobs
    requires if offered == Some(id) then b.jobs[id].revision < MAX_INT32 && OfferMove(b.jobs[id], n, t)
             else offered.None? && JobMove(b.jobs[id], n, t)
    ensures Rewrites(b, WriteJob(b, id, n, e), t, offered)
  {
    var b' := WriteJob(b, id, n, e);
    assert JobsMove(b.jobs, b'.jobs, t, offered);
    assert EventsMove(b.events, b'.events);
    assert b'.approvals == b.approvals;
  }

  lemma ClaimMoves(book: Book, c: Connector, who: Identity, m: ClientMessage, t: Times, durable: bool,
                   coordination: bool, uuid: nat -> Id)
    requires JobsOk(book) && m.body.Claim?
    ensures var v := ClaimVerdict(book, c, who, m, t, durable, coordination, uuid);
            v.Applied? ==> Rewrites(book, v.book, t, None)
  {
    hide ClaimVerdict, WriteJob, ClaimMove, ProgressMove, CancelMove, Rewrites;
    JobsOkKeyed(book);
    if m.body.claimJob in book.jobs { assert JobOk(book.jobs[m.body.claimJob]); }
    var v := ClaimVerdict(book, c, who, m, t, durable, coordination, uuid);
    if v.Applied? {
      ClaimShape(book, c, who, m, t, durable, coordination, uuid);
      if v.book == book {
        IdleMoves(book, t);
      } else {
        var n := Claimant(book.jobs[m.body.claimJob], m.body.claimAttempt);
        WriteMoves(book, m.body.claimJob, n, ClaimEvent(who.connector, m.body.claimAttempt), t, None);
      }
    }
  }

  /** The job as a claim leaves it. */
  function Claimant(o: Job, attempt: nat): Job {
    o.(status := Running, attempt := attempt, revision := o.revision + 1)
  }

  lemma ClaimShape(book: Book, c: Connector, who: Identity, m: ClientMessage, t: Times, durable: bool,
                   coordination: bool, uuid: nat -> Id)
    requires m.body.Claim? && ClaimVerdict(book, c, who, m, t, durable, coordination, uuid).Applied?
    requires m.body.claimJob in book.jobs ==> book.jobs[m.body.claimJob].revision <= MAX_INT32
    ensures var v := ClaimVerdict(book, c, who, m, t, durable, coordination, uuid);
            var id := m.body.claimJob;
            || v.book == book
            || (&& id in book.jobs && book.jobs[id].revision < MAX_INT32
                && ClaimMove(book.jobs[id], Claimant(book.jobs[id], m.body.claimAttempt), t)
                && v.book == WriteJob(book, id, Claimant(book.jobs[id], m.body.claimAttempt),
                                      ClaimEvent(who.connector, m.body.claimAttempt)))
  {
    hide WriteJob, HasOriginalOffer, HasExpiredOffer, WithdrawOffer;
  }

  lemma EventMoves(san: string -> string, book: Book, c: Connector, who: Identity, m: ClientMessage, t: Times,
                   coordination: bool)
    requires JobsOk(book) && m.body.Event?
    ensures var v := EventVerdict(san, book, c, who, m, t, coordination);
            v.Applied? ==> Rewrites(book, v.book, t, None)
  {
    var v := EventVerdict(san, book, c, who, m, t, coordination);
    if v.Applied? {
      var id := m.body.eventJob;
      var e := ClientEvent(san(m.body.eventType),
                           if m.body.eventStatus.Some? then Some(san(m.body.eventStatus.value)) else None);
      EventOnJobMoves(book, c, id, m, book.jobs[id], e, t, coordination);
    }
  }

  lemma EventOnJobMoves(book: Book, c: Connector, id: Id, m: ClientMessage, job: Job, e: JobEvent, t: Times,
                        coordination: bool)
    requires EventsKeyed(book) && m.body.Event? && e.ClientEvent? && id == m.body.eventJob
    requires id in book.jobs && book.jobs[id] == job && JobOk(job)
    ensures var v := EventOnJob(book, c, m, job, e, t, coordination);
            v.Applied? ==> Rewrites(book, v.book, t, None)
  {
    var v := EventOnJob(book, c, m, job, e, t, coordination);
    if v.Applied? {
      if Terminal(job.status) {
        AppendMoves(book, id, e, t);
      } else {
        var word := StatusWord(e.eventType, e.status);
        var next := StatusFor(job.status, word);
        var terminal := TerminalStatusFor(word).Some?;
        var n := job.(status := next, revision := job.revision + 1,
                      terminalAt := if terminal then Some(t.now) else job.terminalAt);
        assert v.book == WriteJob(book, id, n, e);
        assert JobMove(job, n, t) by { assert ProgressMove(job, n); }
        WriteMoves(book, id, n, e, t, None);
      }
    }
  }

  lemma InsertApprovalMoves(b: Book, b': Book, id: Id, a: Approval, t: Times)
    requires Rewrites(b, b', t, None) && b'.approvals == b.approvals && id !in b.approvals && NewApproval(b, b', a)
    ensures Rewrites(b, b'.(approvals := b'.approvals[id := a]), t, None)
  {}

  lemma ApprovalMoves(book: Book, c: Connector, who: Identity, m: ClientMessage, t: Times, coordination: bool)
    requires JobsOk(book) && m.body.ApprovalRequest?
    ensures var v := ApprovalVerdict(book, c, who, m, t, coordination);
            v.Applied? ==> Rewrites(book, v.book, t, None)
  {
    var v := ApprovalVerdict(book, c, who, m, t, coordination);
    if v.Applied? {
      var b := m.body;
      var o := book.jobs[b.approvalJob];
      var n := o.(status := WaitingApproval, revision := o.revision + 1);
      var e := ApprovalRequestedEvent(b.approval, b.approvalRevision);
      assert v.book == WriteJob(book, b.approvalJob, n, e).(approvals := book.approvals[b.approval :=
        Approval(b.approvalJob, b.approvalAttempt, b.approvalRevision, b.approvalFingerprint, b.approvalExpiresAt,
                 None)]);
      assert JobMove(o, n, t) by { assert JobOk(o); assert ProgressMove(o, n); }
      WriteMoves(book, b.approvalJob, n, e, t, None);
      InsertApprovalMoves(book, WriteJob(book, b.approvalJob, n, e), b.approval,
        Approval(b.approvalJob, b.approvalAttempt, b.approvalRevision, b.approvalFingerprint, b.approvalExpiresAt,
                 None), t);
    }
  }

  lemma CancelledMoves(book: Book, c: Connector, who: Identity, m: ClientMessage, t: Times, coordination: bool)
    requires JobsOk(book) && m.body.CancelledReport?
    ensures var v := CancelledVerdict(book, c, who, m, t, coordination);
            v.Applied? ==> Rewrites(book, v.book, t, None)
  {
    var v := CancelledVerdict(book, c, who, m, t, coordination);
    if v.Applied? {
      var id := m.body.cancelledJob;
      var o := book.jobs[id];
      assert JobOk(o);
      if o.status.Cancelling? {
        var n := o.(status := Cancelled, revision := o.revision + 1,
                    terminalAt := if o.terminalAt.Some? then o.terminalAt else Some(t.write));
        assert v.book == WriteJob(book, id, n, ClientCancelledEvent);
        assert JobMove(o, n, t) by { assert ProgressMove(o, n); }
        WriteMoves(book, id, n, ClientCancelledEvent, t, None);
      } else {
        AppendMoves(book, id, ClientCancelledEvent, t);
      }
    }
  }

  lemma AckMoves(book: Book, c: Connector, m: ClientMessage, t: Times)
    requires JobsOk(book) && m.body.AckReport? && m.body.ackSequence in c.server
    ensures var v := AckVerdict(book, c, m, t);
            v.Applied? ==> Rewrites(book, v.book, t, None)
  {
    hide JobsMove, EventsMove, ApprovalsMove, EventsKeyed, WriteJob, ClaimMove, CancelMove, AcknowledgeOne;
    JobsOkKeyed(book);
    var v := AckVerdict(book, c, m, t);
    var body := c.server[m.body.ackSequence].body;
    if v.Applied? && Resumes(book, body, t.now, t.write) {
      var o := book.jobs[body.decisionJob];
      var n := o.(status := Running, revision := o.revision + 1);
      assert JobOk(o);
      assert ProgressMove(o, n);
      WriteMoves(book, body.decisionJob, n, ResumedEvent(body.approval, body.decisionAttempt, body.decisionRevision), t,
                 None);
    } else {
      IdleMoves(book, t);
    }
  }

  lemma MessageMoves(san: string -> string, book: Book, c: Connector, who: Identity, m: ClientMessage, t: Times,
                     durable: bool, coordination: bool, uuid: nat -> Id)
    requires JobsOk(book)
    requires m.body.AckReport? ==> m.body.ackSequence in c.server
    ensures var v := MessageVerdict(san, book, c, who, m, t, durable, coordination, uuid);
            v.Applied? ==> Rewrites(book, v.book, t, None)
  {
    match m.body
    case Hello(_, _, _, _, _) => IdleMoves(book, t);
    case Heartbeat => IdleMoves(book, t);
    case Claim(_, _, _) => ClaimMoves(book, c, who, m, t, durable, coordination, uuid);
    case Sync(_, _, _) => IdleMoves(book, t);
    case Event(_, _, _, _, _) => EventMoves(san, book, c, who, m, t, coordination);
    case ApprovalRequest(_, _, _, _, _, _) => ApprovalMoves(book, c, who, m, t, coordination);
    case CancelledReport(_, _, _) => CancelledMoves(book, c, who, m, t, coordination);
    case AckReport(_) => AckMoves(book, c, m, t);
  }

  /** An admitted message leaves the tables alone or applies its verdict. */
  lemma AcceptedBook(san: string -> string, db: Db, who: Identity, m: ClientMessage, t: Times, uuid: nat -> Id)
    ensures var o := AcceptMessage(san, db, who, m, t, uuid);
            o.Committed? ==>
              && who.connector in db.connectors
              && o.db == db.(clock := t.after, book := o.db.book, connectors := o.db.connectors)
              && (|| o.db.book == db.book
                  || (m.id !in db.connectors[who.connector].client
                      && var c := db.connectors[who.connector];
                         && (m.body.AckReport? ==> m.body.ackSequence in c.server)
                         && var v := MessageVerdict(san, db.book, c, who, m, t, Durable(c, m.body),
                                                    Coordination(c, m.body), uuid);
                            v.Applied? && o.db.book == v.book))
  {}

  lemma AcceptMoves(san: string -> string, db: Db, who: Identity, m: ClientMessage, t: Times, uuid: nat -> Id)
    requires JobsOk(db.book)
    ensures DbMove(db, Result(db, AcceptMessage(san, db, who, m, t, uuid)), t, None)
  {
    IdleMoves(db.book, t);
    AcceptedBook(san, db, who, m, t, uuid);
    var o := AcceptMessage(san, db, who, m, t, uuid);
    if o.Committed? && o.db.book != db.book {
      var c := db.connectors[who.connector];
      MessageMoves(san, db.book, c, who, m, t, Durable(c, m.body), Coordination(c, m.body), uuid);
    }
  }

  /** The job as it is offered, and the audit event of the offer. */
  function Offered(job: Job, connector: Id, lease: Id, t: Times): Job {
    job.(status := Dispatched, connector := Some(connector), lease := Some(lease),
         leaseExpiresAt := Some(Min(t.write + LEASE_MS, job.expiresAt)), revision := job.revision + 1)
  }

  function OfferAudit(job: Job, connector: Id, lease: Id, t: Times): JobEvent {
    OfferEvent(job.owner, job.repository, connector, job.attempt + 1, lease, Min(t.write + LEASE_MS, job.expiresAt))
  }

  lemma DispatchedBook(db: Db, who: Identity, choice: Id, t: Times, lease: Id, correlation: Id, uuid: nat -> Id)
    requires JobsOk(db.book) && t.Ordered()
    ensures var o := DispatchNext(db, who, choice, t, lease, correlation, uuid);
            && (o.Committed? && o.reply.None? ==> o.db == db)
            && (o.Committed? && o.reply.Some? ==>
                  && Offerable(db, who.owner, choice, t.now)
                  && var job := db.book.jobs[choice];
                     && job.revision < MAX_INT32 && OfferMove(job, Offered(job, who.connector, lease, t), t)
                     && o.db == db.(clock := t.after, connectors := o.db.connectors,
                          book := WriteJob(db.book, choice, Offered(job, who.connector, lease, t),
                                           OfferAudit(job, who.connector, lease, t))))
  {
    if choice in db.book.jobs { assert JobOk(db.book.jobs[choice]); }
  }

  lemma DispatchMoves(db: Db, who: Identity, choice: Id, t: Times, lease: Id, correlation: Id, uuid: nat -> Id)
    requires JobsOk(db.book) && t.Ordered()
    ensures var o := DispatchNext(db, who, choice, t, lease, correlation, uuid);
            DbMove(db, Result(db, o), t, if o.Committed? && o.reply.Some? then Some(choice) else None)
  {
    IdleMoves(db.book, t);
    DispatchedBook(db, who, choice, t, lease, correlation, uuid);
    var o := DispatchNext(db, who, choice, t, lease, correlation, uuid);
    if o.Committed? && o.reply.Some? {
      var job := db.book.jobs[choice];
      WriteMoves(db.book, choice, Offered(job, who.connector, lease, t), OfferAudit(job, who.connector, lease, t), t,
                 Some(choice));
    }
  }

  lemma CreateMoves(db: Db, key: CreateKey, digest: Id, repository: Id, mode: Mode, newId: Id, t: Times)
    requires EventsKeyed(db.book) && newId !in db.book.jobs
    ensures DbMove(db, Result(db, CreateIdempotent(db, key, digest, repository, mode, newId, t)), t, None)
  {
    hide JobMove, OfferMove, ApprovalMove;
    IdleMoves(db.book, t);
  }

  lemma CancelMoves(db: Db, owner: Id, id: Id, expected: nat, t: Times, nonce: Id, correlation: Id, uuid: nat -> Id)
    requires JobsOk(db.book)
    ensures DbMove(db, Result(db, CancelAtomically(db, owner, id, expected, t, nonce, correlation, uuid)), t, None)
  {
    hide CancelAtomically, CancelMove, ClaimMove, ProgressMove, JobsMove, EventsMove, ApprovalsMove, EventsKeyed;
    hide WriteJob;
    JobsOkKeyed(db.book);
    IdleMoves(db.book, t);
    CancelShape(db, owner, id, expected, t, nonce, correlation, uuid);
    var o := CancelAtomically(db, owner, id, expected, t, nonce, correlation, uuid);
    if o.Committed? && o.db != db { WriteMoves(db.book, id, o.reply, CancelEvent(o.reply.revision), t, None); }
  }

  lemma JobsOkKeyed(b: Book)
    requires JobsOk(b)
    ensures EventsKeyed(b)
  {}

  lemma CancelShape(db: Db, owner: Id, id: Id, expected: nat, t: Times, nonce: Id, correlation: Id, uuid: nat -> Id)
    requires JobsOk(db.book)
    ensures var o := CancelAtomically(db, owner, id, expected, t, nonce, correlation, uuid);
            o.Committed? ==>
              && id in db.book.jobs && o.db.policies == db.policies && (o.db == db || o.db.clock == t.after)
              && (o.db != db ==>
                    && o.db.book == WriteJob(db.book, id, o.reply, CancelEvent(o.reply.revision))
                    && db.book.jobs[id].revision < MAX_INT32 && CancelMove(db.book.jobs[id], o.reply))
  {
    hide WriteJob;
    if id in db.book.jobs { assert JobOk(db.book.jobs[id]); }
  }

  lemma ClaimOfferMoves(db: Db, id: Id, connector: Id, attempt: nat, lease: Id, t: Times)
    requires JobsOk(db.book)
    ensures DbMove(db, Result(db, ClaimOffer(db, id, connector, attempt, lease, t)), t, None)
  {
    IdleMoves(db.book, t);
    var o := ClaimOffer(db, id, connector, attempt, lease, t);
    if o.Committed? && o.reply.Some? {
      assert ClaimMove(db.book.jobs[id], o.reply.value, t);
      WriteMoves(db.book, id, o.reply.value, ClaimEvent(connector, attempt), t, None);
    }
  }

  lemma RecordMoves(b: Book, approval: Id, d: Decision, t: Times)
    requires EventsKeyed(b) && approval in b.approvals && b.approvals[approval].decision.None?
    ensures Rewrites(b, Record(b, approval, d), t, None)
  {}

  lemma DecideMoves(db: Db, i: DecideInput, t: Times, correlation: Id, uuid: nat -> Id)
    requires EventsKeyed(db.book)
    ensures DbMove(db, Result(db, RecordDecision(db, i, t, correlation, uuid)), t, None)
  {
    IdleMoves(db.book, t);
    var o := RecordDecision(db, i, t, correlation, uuid);
    if o.Committed? && db.book.approvals[i.approval].decision.None? {
      var d := o.reply.decision;
      RecordMoves(db.book, i.approval, d, t);
      if i.owner.Some? {
        var r := Record(db.book, i.approval, d);
        var a := db.book.approvals[i.approval];
        AppendMoves(r, a.job, ApprovalDecidedEvent(i.approval, d), t);
        assert o.db.book == AppendEvent(r, a.job, ApprovalDecidedEvent(i.approval, d));
        assert EventsMove(db.book.events, o.db.book.events);
        assert ApprovalsMove(db.book, o.db.book);
      }
    }
  }

  // ----- what every reachable job satisfies -----

  /** Attempt 0 until claimed and 1 from then on; a terminal time exactly for
      terminal statuses; the cancellation revision bounded by the revision. */
  predicate JobOk(j: Job) {
    && j.revision <= MAX_INT32
    && (j.status.Queued? || j.status.Dispatched? ==> j.attempt == 0 && j.cancelRevision.None?)
    && (Claimed(j.status) || j.status.Succeeded? || j.status.Failed? ==> j.attempt == 1)
    && j.attempt <= 1
    && !j.status.Expired?
    && (j.attempt == 1 ==> j.connector.Some?)
    && (j.status.Dispatched? ==> j.connector.Some? && j.lease.Some? && j.leaseExpiresAt.Some?)
    && (j.lease.Some? <==> j.leaseExpiresAt.Some?)
    && (Terminal(j.status) <==> j.terminalAt.Some?)
    && (j.cancelRevision.Some? ==> j.cancelRevision.value <= j.revision)
    && (j.cancelRevision.Some? ==> j.status.Cancelling? || Terminal(j.status))
    && (j.status.Cancelling? ==> j.cancelRevision.Some?)
  }

  predicate ApprovalOk(b: Book, a: Approval) {
    a.job in b.jobs && a.attempt == 1 == b.jobs[a.job].attempt && a.revision <= b.jobs[a.job].revision
  }

  predicate JobsOk(b: Book) {
    EventsKeyed(b) && forall j :: j in b.jobs ==> JobOk(b.jobs[j])
  }

  /** Jobs are well formed and the approvals of one job carry distinct revisions. */
  predicate BookOk(b: Book) {
    && JobsOk(b)
    && (forall a :: a in b.approvals ==> ApprovalOk(b, b.approvals[a]))
    && (forall a, a' :: a in b.approvals && a' in b.approvals && a != a' && b.approvals[a].job == b.approvals[a'].job
          ==> b.approvals[a].revision != b.approvals[a'].revision)
  }
}
