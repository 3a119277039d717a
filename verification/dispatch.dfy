/** PostgresConnectorStore.dispatchNext, pendingServerMessages and
    enqueueServer (apps/control-plane/src/connector/outbox.ts). */
module Dispatch {
  import opened Common
  import opened JobState
  import opened ServerTypes
  import opened OutboxRows
  import opened Business

  /** The job occupies a slot of its repository at time `at`: unexpired, and
      either claimed and open or offered under a live lease. */
  predicate ActiveAt(job: Job, at: int) {
    && job.expiresAt > at
    && (Claimed(job.status) || (job.status.Dispatched? && job.leaseExpiresAt.Some? && job.leaseExpiresAt.value > at))
  }

  function ActiveJobs(jobs: map<Id, Job>, owner: Id, repository: Id, at: int): set<Id> {
    set j | j in jobs && jobs[j].owner == owner && jobs[j].repository == repository && ActiveAt(jobs[j], at)
  }

  /** The repository is enabled for this owner and has a free slot. */
  predicate HasSlot(db: Db, owner: Id, repository: Id, at: int) {
    && repository in db.policies
    && db.policies[repository].owner == owner && db.policies[repository].enabled
    && |ActiveJobs(db.book.jobs, owner, repository, at)| < db.policies[repository].maxConcurrency
  }

  predicate Offerable(db: Db, owner: Id, id: Id, at: int) {
    && id in db.book.jobs
    && var job := db.book.jobs[id];
       && job.owner == owner && job.expiresAt > at
       && HasSlot(db, owner, job.repository, at)
       && (job.status.Queued? || (job.status.Dispatched? && job.leaseExpiresAt.Some? && job.leaseExpiresAt.value <= at))
  }

  /** One dispatch attempt. Row locks are skipped when held elsewhere, so which
      offerable job is taken is an input: `choice`. Times are the admission
      read, the read after locking, and the clock of the update. */
  function DispatchNext(db: Db, who: Identity, choice: Id, t: Times, lease: Id, correlation: Id,
                        uuid: nat -> Id): Outcome<Option<Delivered>> {
    if who.connector !in db.connectors || db.connectors[who.connector].owner != who.owner then
      Aborted(AuthorizationFailed)
    else if !Offerable(db, who.owner, choice, t.now) then Committed(db, None)
    else
      var c := db.connectors[who.connector];
      var job := db.book.jobs[choice];
      var redispatch := job.status.Dispatched?;
      if job.expiresAt <= t.write then Committed(db, None)
      else if redispatch && (job.lease.None? || job.leaseExpiresAt.value > t.write) then Aborted(Internal)
      else if job.revision == MAX_INT32 || job.attempt == MAX_INT32 then Aborted(ClaimRefused)
      else if job.expiresAt <= t.after then Committed(db, None)
      else if c.lastServer + 1 > MAX_SAFE then Aborted(Internal)
      else
        var leaseEnd := Min(t.write + LEASE_MS, job.expiresAt);
        var updated := job.(status := Dispatched, connector := Some(who.connector), lease := Some(lease),
                            leaseExpiresAt := Some(leaseEnd), revision := job.revision + 1);
        var audit := OfferEvent(job.owner, job.repository, who.connector, job.attempt + 1, lease, leaseEnd);
        var offer := Offer(choice, job.attempt + 1, lease, job.repository);
        Committed(
          db.(clock := t.after,
              book := WriteJob(db.book, choice, updated, audit),
              connectors := db.connectors[who.connector := Enqueue(c, offer, correlation, leaseEnd, t.now, uuid)]),
          Some(Delivered(c.lastServer + 1, offer)))
  }

  /** The next batch for a connection; expired rows are tombstoned first. */
  function PendingMessages(db: Db, who: Identity, after: nat, t: Times, uuid: nat -> Id): Outcome<seq<Delivered>> {
    if who.connector !in db.connectors || db.connectors[who.connector].owner != who.owner then
      Aborted(AuthorizationFailed)
    else
      var c := TombstoneBatch(db.connectors[who.connector], db.book.jobs, after, t.now, uuid);
      Committed(db.(clock := t.after, connectors := db.connectors[who.connector := c]),
                Batch(c.server, after, c.lastServer, REPLAY_BATCH))
  }

  /** enqueueServer as the gateway uses it: only to report a protocol failure. */
  function ReportFailure(db: Db, who: Identity, detail: Id, t: Times, correlation: Id,
                         uuid: nat -> Id): Outcome<Delivered> {
    if who.connector !in db.connectors || db.connectors[who.connector].owner != who.owner then
      Aborted(AuthorizationFailed)
    else
      var c := db.connectors[who.connector];
      var body := ErrorBody(ProtocolFailure(detail), ProtocolErrorText);
      if c.lastServer + 1 > MAX_SAFE then Aborted(Internal)
      else Committed(
        db.(clock := t.after,
            connectors :=
              db.connectors[who.connector := Enqueue(c, body, correlation, t.after + MESSAGE_TTL_MS, t.now, uuid)]),
        Delivered(c.lastServer + 1, body))
  }
}
