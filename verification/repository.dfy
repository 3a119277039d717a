/** The owner-facing transactions (apps/control-plane/src/db/job-repository.ts). */
module Repository {
  import opened Common
  import opened JobState
  import opened ServerTypes
  import opened OutboxRows
  import opened Business

  const JOB_LIFETIME_MS := 86_400_000

  /** createIdempotent: one job per (owner, client request id). `newId` is the
      new job's random id. */
  function CreateIdempotent(db: Db, key: CreateKey, digest: Id, repository: Id, mode: Mode, newId: Id,
                            t: Times): Outcome<Id> {
    if key in db.creations then
      if db.creations[key].digest != digest then Aborted(IdempotencyConflict)
      else if db.creations[key].job !in db.book.jobs then Aborted(NotFound)
      else Committed(db, db.creations[key].job)
    // foreign key
    else if repository !in db.policies || db.policies[repository].owner != key.owner then Aborted(Internal)
    else
      var job := Job(key.owner, None, repository, mode, Queued, 0, None, 0, None, None, t.now + JOB_LIFETIME_MS, None);
      Committed(
        db.(clock := t.after,
            book := db.book.(jobs := db.book.jobs[newId := job], events := db.book.events[newId := []]),
            creations := db.creations[key := CreateRecord(digest, newId)]),
        newId)
  }

  /** enqueueServerCommand: None when the connector is missing or foreign. */
  predicate CanCommand(db: Db, owner: Id, connector: Option<Id>) {
    connector.Some? && connector.value in db.connectors && db.connectors[connector.value].owner == owner
  }

  function Command(db: Db, book: Book, connector: Id, body: ServerBody, expiresAt: int, t: Times, correlation: Id,
                   uuid: nat -> Id): Db
    requires connector in db.connectors
  {
    db.(clock := t.after, book := book,
        connectors :=
          db.connectors[connector := Enqueue(db.connectors[connector], body, correlation, expiresAt, t.now, uuid)])
  }

  /** cancelAtomically. The reply is the job as it stands afterwards. */
  function CancelAtomically(db: Db, owner: Id, id: Id, expected: nat, t: Times, nonce: Id, correlation: Id,
                            uuid: nat -> Id): Outcome<Job> {
    if id !in db.book.jobs || db.book.jobs[id].owner != owner then Aborted(NotFound)
    else
      var job := db.book.jobs[id];
      if job.status.Cancelling? || Terminal(job.status) then Committed(db, job)
      else if job.revision != expected || job.revision == MAX_INT32 then Aborted(RevisionConflict)
      else if job.status.Queued? || job.status.Dispatched? then
        var updated := job.(status := Cancelled, revision := job.revision + 1,
                            terminalAt := if job.terminalAt.Some? then job.terminalAt else Some(t.now));
        Committed(db.(clock := t.after, book := WriteJob(db.book, id, updated, CancelEvent(updated.revision))), updated)
      else
        var updated := job.(status := Cancelling, revision := job.revision + 1,
                            cancelRevision := Some(job.revision + 1));
        if !CanCommand(db, owner, job.connector) then Aborted(OwnerMismatch)
        else if job.expiresAt <= t.after then Aborted(RevisionConflict)
        else if db.connectors[job.connector.value].lastServer + 1 > MAX_SAFE then Aborted(Internal)
        else
          Committed(
            Command(db, WriteJob(db.book, id, updated, CancelEvent(updated.revision)), job.connector.value,
                    CancelCommand(id, job.attempt, updated.revision, nonce), job.expiresAt, t, correlation, uuid),
            updated)
  }

  /** claimOffer, the claim transaction outside the message protocol. */
  function ClaimOffer(db: Db, id: Id, connector: Id, attempt: nat, lease: Id, t: Times): Outcome<Option<Job>> {
    if id !in db.book.jobs then Committed(db, None)
    else
      var job := db.book.jobs[id];
      if !job.status.Dispatched? || job.connector != Some(connector) || job.lease != Some(lease)
         || job.leaseExpiresAt.None? || attempt != job.attempt + 1
         || connector !in db.connectors || db.connectors[connector].owner != job.owner
         || job.leaseExpiresAt.value <= t.write || job.expiresAt <= t.write then Committed(db, None)
      else if job.revision == MAX_INT32 || job.attempt == MAX_INT32 then Aborted(Internal)   // integer out of range
      else
        var updated := job.(status := Running, attempt := attempt, revision := job.revision + 1,
                            leaseExpiresAt := Some(Min(t.write + LEASE_MS, job.expiresAt)));
        Committed(db.(clock := t.after, book := WriteJob(db.book, id, updated, ClaimEvent(connector, attempt))),
                  Some(updated))
  }

  // ----- approvals -----

  datatype DecideInput = DecideInput(
    approval: Id, decision: Decision, expectedRevision: nat,
    owner: Option<Id>, fingerprint: Option<Id>, expectedAttempt: Option<nat>, callerNow: int)

  datatype Decided = Decided(decision: Decision, expired: bool)

  predicate Agrees<T(==)>(given: Option<T>, actual: T) { given.Some? ==> given.value == actual }

  /** recordApprovalDecision. With an owner it also notifies the connector; the
      legacy form only records. `expired` in the reply stands for the
      APPROVAL_EXPIRED error raised after the rejection is committed. */
  function RecordDecision(db: Db, i: DecideInput, t: Times, correlation: Id, uuid: nat -> Id): Outcome<Decided> {
    if i.approval !in db.book.approvals then Aborted(NotFound)
    else
      var a := db.book.approvals[i.approval];
      if a.job !in db.book.jobs || !Agrees(i.owner, db.book.jobs[a.job].owner) then Aborted(NotFound)
      else
        var job := db.book.jobs[a.job];
        var now := if i.owner.Some? then t.now else i.callerNow;
        if i.owner.Some? && job.expiresAt <= now then Aborted(ApprovalExpired)
        else if a.decision.Some? then
          if i.owner.None? then Aborted(ApprovalAlreadyDecided)
          else if a.decision.value == i.decision && Agrees(i.fingerprint, a.fingerprint)
                  && job.status.WaitingApproval? && job.revision == a.revision && job.attempt == a.attempt
                  && Agrees(i.expectedAttempt, a.attempt) && a.revision == i.expectedRevision
          then Committed(db, Decided(a.decision.value, false))
          else Aborted(ApprovalMismatch)
        else if a.revision != i.expectedRevision || job.revision != i.expectedRevision then Aborted(ApprovalMismatch)
        else if i.owner.Some? && (!job.status.WaitingApproval? || job.attempt != a.attempt
                || !Agrees(i.expectedAttempt, a.attempt) || !Agrees(i.fingerprint, a.fingerprint)) then
                   Aborted(ApprovalMismatch)
        else if i.owner.None? then
          if a.expiresAt <= now then Aborted(ApprovalExpired)
          else Committed(db.(clock := t.after, book := Record(db.book, i.approval, i.decision)),
                         Decided(i.decision, false))
        else
          DecideOwned(db, i, a, job, t, correlation, uuid)
  }

  function Record(book: Book, approval: Id, d: Decision): Book
    requires approval in book.approvals
  {
    book.(approvals := book.approvals[approval := book.approvals[approval].(decision := Some(d))])
  }

  /** The owner-bearing write: the decision, or a rejection if the approval
      expired meanwhile, with its audit event and its command. */
  function DecideOwned(db: Db, i: DecideInput, a: Approval, job: Job, t: Times, correlation: Id,
                       uuid: nat -> Id): Outcome<Decided>
    requires i.approval in db.book.approvals && i.owner.Some?
  {
    var decidable := a.expiresAt > t.write && job.expiresAt > t.write;
    var late := a.expiresAt <= t.after && job.expiresAt > t.after;
    if !decidable && !late then Aborted(ApprovalExpired)
    else if !CanCommand(db, i.owner.value, job.connector) then Aborted(OwnerMismatch)
    else if job.expiresAt <= t.after then Aborted(ApprovalExpired)
    else if db.connectors[job.connector.value].lastServer + 1 > MAX_SAFE then Aborted(Internal)
    else
      var d := if decidable then i.decision else Reject;
      var book := AppendEvent(Record(db.book, i.approval, d), a.job, ApprovalDecidedEvent(i.approval, d));
      Committed(
        Command(db, book, job.connector.value,
                DecisionCommand(i.approval, a.job, a.attempt, a.revision, a.fingerprint, d),
                Min(job.expiresAt, t.after + MESSAGE_TTL_MS), t, correlation, uuid),
        Decided(d, !decidable))
  }

  /** listPendingApprovals and getPendingApproval select exactly these. */
  predicate Pending(book: Book, approval: Id, now: int) {
    && approval in book.approvals
    && var a := book.approvals[approval];
       && a.decision.None? && a.job in book.jobs
       && var job := book.jobs[a.job];
          job.status.WaitingApproval? && job.attempt == a.attempt && job.revision == a.revision
          && a.expiresAt > now && job.expiresAt > now
  }
}
