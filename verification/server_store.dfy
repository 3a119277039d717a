/** The control plane's store as an object: one field per table, which its
    transactions update, each committing or leaving them as they were
    (apps/control-plane/src/connector/outbox.ts, apps/control-plane/src/db/
    job-repository.ts). */
module ServerStore {
  import opened Common
  import opened JobState
  import opened ServerTypes
  import opened OutboxRows
  import opened Business
  import opened Accept
  import opened Dispatch
  import opened Repository
  import opened ServerRuns
  import Delivery

  class ConnectorStore {
    var clock: int
    var jobs: map<Id, Job>
    var approvals: map<Id, Approval>
    var events: map<Id, seq<JobEvent>>
    var connectors: map<Id, Connector>
    var creations: map<CreateKey, CreateRecord>
    const policies: map<Id, Policy>
    const sanitize: string -> string

    function Tables(): Db
      reads this
    {
      Db(clock, Book(jobs, approvals, events), connectors, policies, creations)
    }

    /** Every connector's rows are gap free and every receipt can be replayed. */
    ghost predicate Valid()
      reads this
    {
      Delivery.ConnectorsOk(Tables())
    }

    constructor (initial: Db, sanitize: string -> string)
      ensures Tables() == initial && this.sanitize == sanitize
    {
      clock, connectors, policies, creations := initial.clock, initial.connectors, initial.policies, initial.creations;
      jobs, approvals, events := initial.book.jobs, initial.book.approvals, initial.book.events;
      this.sanitize := sanitize;
    }

    // ----- writes inside a transaction -----

    /** enqueueServerMessage: the cursor moves by one and the row takes its place. */
    method EnqueueServerMessage(cid: Id, body: ServerBody, correlation: Id, expiresAt: int, now: int, uuid: nat -> Id)
      requires cid in connectors
      modifies this`connectors
      ensures connectors
           == old(connectors)[cid := Enqueue(old(connectors)[cid], body, correlation, expiresAt, now, uuid)]
    {
      var c := connectors[cid];
      var next := c.lastServer + 1;
      c := c.(lastServer := next);
      c := c.(server := c.server[next := ServerRow(uuid(next), body, correlation, expiresAt, now, false)]);
      connectors := connectors[cid := c];
    }

    /** The reply rows and the receipt that remembers them. */
    method WriteReceipt(cid: Id, m: ClientMessage, durable: bool, coordination: bool, reply: Reply, t: Times,
                        uuid: nat -> Id)
      requires cid in connectors
      modifies this`connectors
      ensures connectors
           == old(connectors)[cid := Receipt(old(connectors)[cid], m, durable, coordination, reply, t, uuid)]
    {
      hide Enqueue;
      var response, ack := None, None;
      if reply.first.Some? {
        EnqueueServerMessage(cid, reply.first.value, m.correlation, t.now + MESSAGE_TTL_MS, t.now, uuid);
        response := Some(StoredResponse(reply.first.value, connectors[cid].lastServer, m.correlation));
      }
      if reply.ack {
        EnqueueServerMessage(cid, AckOf(m.sequence), m.correlation, t.after + MESSAGE_TTL_MS, t.now, uuid);
        ack := Some(StoredResponse(AckOf(m.sequence), connectors[cid].lastServer, m.correlation));
      }
      var c := connectors[cid];
      c := c.(client := c.client[m.id := ClientRow(m, durable, coordination, response, ack)]);
      connectors := connectors[cid := c];
    }

    /** refreshServerMessage, when the row expired or no longer holds the response. */
    method RefreshRow(cid: Id, original: Original, t: Times, uuid: nat -> Id)
      requires cid in connectors && (original.Found? ==> original.sequence in connectors[cid].server)
      modifies this`connectors
      ensures connectors == old(connectors)[cid := RefreshIfNeeded(old(connectors)[cid], original, t, uuid)]
    {
      var c := connectors[cid];
      if original.Found? {
        var row := c.server[original.sequence];
        if row.expiresAt <= t.now || row.body != original.body {
          row := row.(messageId := uuid(original.sequence), body := original.body);
          row := row.(expiresAt := t.after + MESSAGE_TTL_MS, createdAt := t.after);
          c := c.(server := c.server[original.sequence := row]);
        }
      }
      connectors := connectors[cid := c];
    }

    method AppendJobEvent(id: Id, e: JobEvent)
      modifies this`events
      ensures Book(jobs, approvals, events) == AppendEvent(old(Book(jobs, approvals, events)), id, e)
    {
      var log := if id in events then events[id] else [];
      events := events[id := log + [e]];
    }

    /** The job row and its event, as one write. */
    method UpdateJob(id: Id, job: Job, e: JobEvent)
      modifies this`jobs, this`events
      ensures Book(jobs, approvals, events) == WriteJob(old(Book(jobs, approvals, events)), id, job, e)
    {
      jobs := jobs[id := job];
      AppendJobEvent(id, e);
    }

    // ----- acceptClientMessage -----

    /** A new message: checks, the business effect on a candidate book, then the
        cursor, the reply rows and the receipt. */
    method AdmitNew(who: Identity, m: ClientMessage, t: Times, uuid: nat -> Id) returns (o: Outcome<Acceptance>)
      requires who.connector in connectors
      modifies this
      ensures o == AcceptNew(sanitize, old(Tables()), who, old(connectors[who.connector]), m, t, uuid)
      ensures Tables() == Result(old(Tables()), o)
    {
      hide MessageVerdict, Admit, Receipt, AdmissionReply, Settle, PayloadParses;
      var c, book := connectors[who.connector], Book(jobs, approvals, events);
      var durable, coordination := Durable(c, m.body), Coordination(c, m.body);
      if !Admissible(c, m, durable, t.now) { return Aborted(ClientReplayMismatch); }
      if c.lastClient + 1 > MAX_SAFE { return Aborted(Internal); }
      if m.sequence > c.lastClient + 1 { return Aborted(ClientSequenceGap); }
      if m.sequence < c.lastClient + 1 { return Aborted(ClientReplayMismatch); }
      if !HelloMatches(who.connector, c, m.body) { return Aborted(ClientReplayMismatch); }
      if m.body.AckReport? && m.body.ackSequence !in c.server { return Aborted(ClientReplayMismatch); }
      if m.body.Sync? && !coordination { return Aborted(AuthorizationFailed); }
      // The savepoint: nothing is written until the verdict is settled.
      var s := Settle(MessageVerdict(sanitize, book, c, who, m, t, durable, coordination, uuid), durable, coordination);
      if s.Throw? { return Aborted(s.error); }
      SyncFindsItsJob(sanitize, book, c, who, m, t, durable, coordination, uuid);
      var a := Admit(who.connector, c, book, m, durable, coordination, s, t, uuid);
      if Unparsable(a.reply) { return Aborted(SchemaRejected); }
      if a.connector.lastServer + Width(a.reply) > MAX_SAFE { return Aborted(Internal); }
      clock, jobs, approvals, events := t.after, a.book.jobs, a.book.approvals, a.book.events;
      connectors := connectors[who.connector := a.connector];
      WriteReceipt(who.connector, m, durable, coordination, a.reply, t, uuid);
      return Committed(Tables(), AdmissionReply(a, m));
    }

    /** A known message: its receipt is found, its rows are refreshed, and the
        stored response and acknowledgement are handed out again. */
    method ReplayReceipt(cid: Id, m: ClientMessage, t: Times, uuid: nat -> Id) returns (o: Outcome<Acceptance>)
      requires cid in connectors && m.id in connectors[cid].client
      modifies this
      ensures o == AcceptDuplicate(old(Tables()), cid, old(connectors[cid]), m, old(connectors[cid].client[m.id]), t,
                                   uuid)
      ensures Tables() == Result(old(Tables()), o)
    {
      hide FindOriginal, RefreshIfNeeded, IsExactDuplicate;
      var c, before := connectors[cid], connectors;
      var row := c.client[m.id];
      if !IsExactDuplicate(row, m) { return Aborted(ClientReplayMismatch); }
      if row.durable && m.expiresAt > t.now + MESSAGE_TTL_MS { return Aborted(ClientReplayMismatch); }
      if !row.durable && m.expiresAt <= t.now { return Aborted(ClientReplayMismatch); }
      var original := FindOriginal(cid, c, m, row, false);
      if original.Broken? { return Aborted(Internal); }
      FoundIsStored(cid, c, m, row, false);
      var answered := m.body.Sync? || (row.coordination && original.Found? && original.body.ErrorBody?);
      if answered && row.receiptAck.None? { return Aborted(Internal); }
      RefreshRow(cid, original, t, uuid);
      if row.receiptAck.None? {
        clock := t.after;
        var first := if original.Found? then Some(Delivered(original.sequence, original.body)) else None;
        return Committed(Tables(), Acceptance(true, [], first));
      }
      c := connectors[cid];
      var ack := FindOriginal(cid, c, m, row, true);
      FoundIsStored(cid, c, m, row, true);
      if !original.Found? || !ack.Found? || !ack.body.AckOf? || ack.sequence != original.sequence + 1 {
        connectors := before;   // the transaction rolls back
        return Aborted(Internal);
      }
      RefreshRow(cid, ack, t, uuid);
      clock := t.after;
      return Committed(Tables(), Acceptance(true, [Delivered(original.sequence, original.body)],
                                            Some(Delivered(ack.sequence, ack.body))));
    }

    /** acceptClientMessage. */
    method AcceptClientMessage(who: Identity, m: ClientMessage, t: Times, uuid: nat -> Id)
      returns (o: Outcome<Acceptance>)
      modifies this
      ensures o == AcceptMessage(sanitize, old(Tables()), who, m, t, uuid) && Tables() == Result(old(Tables()), o)
      ensures old(Valid()) ==> Valid()
    {
      hide AcceptNew, AcceptDuplicate, Delivery.ConnectorsOk;
      if Valid() { AcceptGood(sanitize, Tables(), who, m, t, uuid); }
      if who.connector !in connectors || connectors[who.connector].owner != who.owner {
        return Aborted(AuthorizationFailed);
      }
      var c := connectors[who.connector];
      if m.id in c.client {
        o := ReplayReceipt(who.connector, m, t, uuid);
        return;
      }
      if ServerUses(c, m.id) { return Aborted(ClientReplayMismatch); }
      o := AdmitNew(who, m, t, uuid);
    }

    // ----- dispatch and delivery -----

    /** dispatchNext, on the candidate that row locking leaves it. */
    method Dispatch(who: Identity, choice: Id, t: Times, lease: Id, correlation: Id, uuid: nat -> Id)
      returns (o: Outcome<Option<Delivered>>)
      modifies this
      ensures o == DispatchNext(old(Tables()), who, choice, t, lease, correlation, uuid)
              && Tables() == Result(old(Tables()), o)
      ensures old(Valid()) ==> Valid()
    {
      hide HasSlot, WriteJob, Delivery.ConnectorsOk;
      if Valid() { DispatchGood(Tables(), who, choice, t, lease, correlation, uuid); }
      if who.connector !in connectors || connectors[who.connector].owner != who.owner {
        return Aborted(AuthorizationFailed);
      }
      if !Offerable(Tables(), who.owner, choice, t.now) { return Committed(Tables(), None); }
      var job := jobs[choice];
      if job.expiresAt <= t.write { return Committed(Tables(), None); }
      if job.status.Dispatched? && (job.lease.None? || job.leaseExpiresAt.value > t.write) { return Aborted(Internal); }
      if job.revision == MAX_INT32 || job.attempt == MAX_INT32 { return Aborted(ClaimRefused); }
      if job.expiresAt <= t.after { return Committed(Tables(), None); }
      var sequence := connectors[who.connector].lastServer + 1;
      if sequence > MAX_SAFE { return Aborted(Internal); }
      var leaseEnd := Min(t.write + LEASE_MS, job.expiresAt);
      var offer := Offer(choice, job.attempt + 1, lease, job.repository);
      var audit := OfferEvent(job.owner, job.repository, who.connector, job.attempt + 1, lease, leaseEnd);
      job := job.(status := Dispatched, connector := Some(who.connector));
      job := job.(lease := Some(lease), leaseExpiresAt := Some(leaseEnd), revision := job.revision + 1);
      clock := t.after;
      UpdateJob(choice, job, audit);
      EnqueueServerMessage(who.connector, offer, correlation, leaseEnd, t.now, uuid);
      return Committed(Tables(), Some(Delivered(sequence, offer)));
    }

    /** pendingServerMessages: expired rows are replaced in place, then a batch is read. */
    method PendingServerMessages(who: Identity, after: nat, t: Times, uuid: nat -> Id)
      returns (o: Outcome<seq<Delivered>>)
      modifies this
      ensures o == PendingMessages(old(Tables()), who, after, t, uuid) && Tables() == Result(old(Tables()), o)
      ensures old(Valid()) ==> Valid()
    {
      hide Delivery.ConnectorsOk;
      if Valid() { PendingGood(Tables(), who, after, t, uuid); }
      if who.connector !in connectors || connectors[who.connector].owner != who.owner {
        return Aborted(AuthorizationFailed);
      }
      var c := TombstoneReplayBatch(connectors[who.connector], jobs, after, t.now, uuid);
      clock, connectors := t.after, connectors[who.connector := c];
      return Committed(Tables(), Batch(c.server, after, c.lastServer, REPLAY_BATCH));
    }

    /** enqueueServer, as the gateway reports a protocol failure. */
    method Report(who: Identity, detail: Id, t: Times, correlation: Id, uuid: nat -> Id) returns (o: Outcome<Delivered>)
      modifies this
      ensures o == ReportFailure(old(Tables()), who, detail, t, correlation, uuid)
              && Tables() == Result(old(Tables()), o)
      ensures old(Valid()) ==> Valid()
    {
      hide Delivery.ConnectorsOk;
      if Valid() { ReportGood(Tables(), who, detail, t, correlation, uuid); }
      if who.connector !in connectors || connectors[who.connector].owner != who.owner {
        return Aborted(AuthorizationFailed);
      }
      var sequence := connectors[who.connector].lastServer + 1;
      if sequence > MAX_SAFE { return Aborted(Internal); }
      var body := ErrorBody(ProtocolFailure(detail), ProtocolErrorText);
      clock := t.after;
      EnqueueServerMessage(who.connector, body, correlation, t.after + MESSAGE_TTL_MS, t.now, uuid);
      return Committed(Tables(), Delivered(sequence, body));
    }

    // ----- the owner's transactions -----

    /** createIdempotent. */
    method Create(key: CreateKey, digest: Id, repository: Id, mode: Mode, newId: Id, t: Times) returns (o: Outcome<Id>)
      modifies this
      ensures o == CreateIdempotent(old(Tables()), key, digest, repository, mode, newId, t)
              && Tables() == Result(old(Tables()), o)
      ensures old(Valid()) ==> Valid()
    {
      if key in creations {
        if creations[key].digest != digest { return Aborted(IdempotencyConflict); }
        if creations[key].job !in jobs { return Aborted(NotFound); }
        return Committed(Tables(), creations[key].job);
      }
      if repository !in policies || policies[repository].owner != key.owner { return Aborted(Internal); }
      clock := t.after;
      jobs := jobs[newId := Job(key.owner, None, repository, mode, Queued, 0, None, 0, None, None,
                                t.now + JOB_LIFETIME_MS, None)];
      events := events[newId := []];
      creations := creations[key := CreateRecord(digest, newId)];
      return Committed(Tables(), newId);
    }

    /** cancelAtomically. */
    method Cancel(owner: Id, id: Id, expected: nat, t: Times, nonce: Id, correlation: Id, uuid: nat -> Id)
      returns (o: Outcome<Job>)
      modifies this
      ensures o == CancelAtomically(old(Tables()), owner, id, expected, t, nonce, correlation, uuid)
      ensures Tables() == Result(old(Tables()), o) && (old(Valid()) ==> Valid())
    {
      hide WriteJob, Delivery.ConnectorsOk;
      if Valid() { CancelGood(Tables(), owner, id, expected, t, nonce, correlation, uuid); }
      if id !in jobs || jobs[id].owner != owner { return Aborted(NotFound); }
      var job := jobs[id];
      if job.status.Cancelling? || Terminal(job.status) { return Committed(Tables(), job); }
      if job.revision != expected || job.revision == MAX_INT32 { return Aborted(RevisionConflict); }
      if job.status.Queued? || job.status.Dispatched? {
        if job.terminalAt.None? { job := job.(terminalAt := Some(t.now)); }
        job := job.(status := Cancelled, revision := job.revision + 1);
        clock := t.after;
        UpdateJob(id, job, CancelEvent(job.revision));
        return Committed(Tables(), job);
      }
      job := job.(status := Cancelling, revision := job.revision + 1, cancelRevision := Some(job.revision + 1));
      if !CanCommand(Tables(), owner, job.connector) { return Aborted(OwnerMismatch); }
      if job.expiresAt <= t.after { return Aborted(RevisionConflict); }
      var cid := job.connector.value;
      if connectors[cid].lastServer + 1 > MAX_SAFE { return Aborted(Internal); }
      clock := t.after;
      UpdateJob(id, job, CancelEvent(job.revision));
      EnqueueServerMessage(cid, CancelCommand(id, job.attempt, job.revision, nonce), correlation, job.expiresAt, t.now,
                           uuid);
      return Committed(Tables(), job);
    }

    /** claimOffer. */
    method Claim(id: Id, connector: Id, attempt: nat, lease: Id, t: Times) returns (o: Outcome<Option<Job>>)
      modifies this
      ensures o == ClaimOffer(old(Tables()), id, connector, attempt, lease, t) && Tables() == Result(old(Tables()), o)
      ensures old(Valid()) ==> Valid()
    {
      hide WriteJob;
      if id !in jobs { return Committed(Tables(), None); }
      var job := jobs[id];
      if !job.status.Dispatched? || job.connector != Some(connector) || job.lease != Some(lease)
        || job.leaseExpiresAt.None?
         || attempt != job.attempt + 1 || connector !in connectors || connectors[connector].owner != job.owner
         || job.leaseExpiresAt.value <= t.write || job.expiresAt <= t.write { return Committed(Tables(), None); }
      if job.revision == MAX_INT32 || job.attempt == MAX_INT32 { return Aborted(Internal); }
      job := job.(status := Running, attempt := attempt, revision := job.revision + 1);
      job := job.(leaseExpiresAt := Some(Min(t.write + LEASE_MS, job.expiresAt)));
      clock := t.after;
      UpdateJob(id, job, ClaimEvent(connector, attempt));
      return Committed(Tables(), Some(job));
    }

    /** The owner-bearing half of recordApprovalDecision: the decision, its audit
        event and its command, or nothing. */
    method DecideAsOwner(i: DecideInput, t: Times, correlation: Id, uuid: nat -> Id) returns (o: Outcome<Decided>)
      requires i.approval in approvals && approvals[i.approval].job in jobs && i.owner.Some?
      modifies this
      ensures var a := old(approvals)[i.approval];
              o == DecideOwned(old(Tables()), i, a, old(jobs)[a.job], t, correlation, uuid)
      ensures Tables() == Result(old(Tables()), o)
    {
      hide AppendEvent;
      var a := approvals[i.approval];
      var job := jobs[a.job];
      var decidable := a.expiresAt > t.write && job.expiresAt > t.write;
      var late := a.expiresAt <= t.after && job.expiresAt > t.after;
      if !decidable && !late { return Aborted(ApprovalExpired); }
      if !CanCommand(Tables(), i.owner.value, job.connector) { return Aborted(OwnerMismatch); }
      if job.expiresAt <= t.after { return Aborted(ApprovalExpired); }
      if connectors[job.connector.value].lastServer + 1 > MAX_SAFE { return Aborted(Internal); }
      var d := if decidable then i.decision else Reject;
      clock := t.after;
      approvals := approvals[i.approval := a.(decision := Some(d))];
      AppendJobEvent(a.job, ApprovalDecidedEvent(i.approval, d));
      EnqueueServerMessage(job.connector.value,
                           DecisionCommand(i.approval, a.job, a.attempt, a.revision, a.fingerprint, d),
                           correlation, Min(job.expiresAt, t.after + MESSAGE_TTL_MS), t.now, uuid);
      return Committed(Tables(), Decided(d, !decidable));
    }

    /** recordApprovalDecision. */
    method Decide(i: DecideInput, t: Times, correlation: Id, uuid: nat -> Id) returns (o: Outcome<Decided>)
      modifies this
      ensures o == RecordDecision(old(Tables()), i, t, correlation, uuid) && Tables() == Result(old(Tables()), o)
      ensures old(Valid()) ==> Valid()
    {
      hide DecideOwned, Delivery.ConnectorsOk;
      if Valid() { DecideGood(Tables(), i, t, correlation, uuid); }
      if i.approval !in approvals { return Aborted(NotFound); }
      var a := approvals[i.approval];
      if a.job !in jobs || !Agrees(i.owner, jobs[a.job].owner) { return Aborted(NotFound); }
      var job := jobs[a.job];
      var now := if i.owner.Some? then t.now else i.callerNow;
      if i.owner.Some? && job.expiresAt <= now { return Aborted(ApprovalExpired); }
      if a.decision.Some? {
        if i.owner.None? { return Aborted(ApprovalAlreadyDecided); }
        if a.decision.value == i.decision && Agrees(i.fingerprint, a.fingerprint)
           && job.status.WaitingApproval? && job.revision == a.revision && job.attempt == a.attempt
           && Agrees(i.expectedAttempt, a.attempt) && a.revision == i.expectedRevision
        {
          return Committed(Tables(), Decided(a.decision.value, false));
        }
        return Aborted(ApprovalMismatch);
      }
      if a.revision != i.expectedRevision || job.revision != i.expectedRevision { return Aborted(ApprovalMismatch); }
      if i.owner.Some? {
        if !job.status.WaitingApproval? || job.attempt != a.attempt { return Aborted(ApprovalMismatch); }
        if !Agrees(i.expectedAttempt, a.attempt) || !Agrees(i.fingerprint, a.fingerprint) {
          return Aborted(ApprovalMismatch);
        }
        o := DecideAsOwner(i, t, correlation, uuid);
        return;
      }
      if a.expiresAt <= now { return Aborted(ApprovalExpired); }
      clock := t.after;
      approvals := approvals[i.approval := a.(decision := Some(i.decision))];
      return Committed(Tables(), Decided(i.decision, false));
    }

    /** One transaction of a run, by the method that carries it out. */
    method Perform(s: Step)
      modifies this
      ensures Tables() == Apply(sanitize, old(Tables()), s)
    {
      hide AcceptMessage, DispatchNext, PendingMessages, ReportFailure, CreateIdempotent, CancelAtomically, ClaimOffer;
      hide RecordDecision, Delivery.ConnectorsOk;
      match s
      case AcceptStep(who, m, t, uuid) => var _ := AcceptClientMessage(who, m, t, uuid);
      case DispatchStep(who, choice, t, lease, correlation, uuid) =>
        var _ := Dispatch(who, choice, t, lease, correlation, uuid);
      case PendingStep(who, after, t, uuid) => var _ := PendingServerMessages(who, after, t, uuid);
      case FailureStep(who, detail, t, correlation, uuid) => var _ := Report(who, detail, t, correlation, uuid);
      case CreateStep(key, digest, repository, mode, newId, t) =>
        var _ := Create(key, digest, repository, mode, newId, t);
      case CancelStep(owner, job, expected, t, nonce, correlation, uuid) =>
        var _ := Cancel(owner, job, expected, t, nonce, correlation, uuid);
      case ClaimOfferStep(job, connector, attempt, lease, t) => var _ := Claim(job, connector, attempt, lease, t);
      case DecideStep(input, t, correlation, uuid) => var _ := Decide(input, t, correlation, uuid);
    }
  }

  /** A store that carries out a run holds what the run computes, so every theorem
      about runs is one about the object. */
  method Execute(initial: Db, sanitize: string -> string, steps: seq<Step>) returns (store: ConnectorStore)
    ensures fresh(store) && store.Tables() == Run(sanitize, initial, steps)
    ensures Initial(initial) ==> store.Valid()
  {
    hide Apply, Delivery.ConnectorsOk;
    store := new ConnectorStore(initial, sanitize);
    for i := 0 to |steps|
      invariant fresh(store) && store.Tables() == Run(sanitize, initial, steps[..i]) && store.sanitize == sanitize
    {
      store.Perform(steps[i]);
      assert steps[..i + 1][..i] == steps[..i];
    }
    assert steps[..|steps|] == steps;
    if Initial(initial) {
      Delivery.InitialOk(initial);
      Delivery.ConnectorsRun(sanitize, initial, steps);
    }
  }

  lemma SyncFindsItsJob(san: string -> string, book: Book, c: Connector, who: Identity, m: ClientMessage, t: Times,
                        durable: bool, coordination: bool, uuid: nat -> Id)
    requires m.body.AckReport? ==> m.body.ackSequence in c.server
    ensures var s := Settle(MessageVerdict(san, book, c, who, m, t, durable, coordination, uuid), durable,
                            coordination);
            m.body.Sync? && s.Effect? ==> m.body.syncJob in book.jobs
  {
    hide HasOriginalOffer, ClaimVerdict, EventVerdict, ApprovalVerdict, CancelledVerdict, AckVerdict;
  }

  lemma FoundIsStored(cid: Id, c: Connector, m: ClientMessage, row: ClientRow, receipt: bool)
    ensures var f := FindOriginal(cid, c, m, row, receipt); f.Found? ==> f.sequence in c.server
  {}

  // Every transaction keeps the connectors' invariant, as a step of a run.

  lemma AcceptGood(san: string -> string, db: Db, who: Identity, m: ClientMessage, t: Times, uuid: nat -> Id)
    requires Delivery.ConnectorsOk(db)
    ensures Delivery.ConnectorsOk(Result(db, AcceptMessage(san, db, who, m, t, uuid)))
  {
    hide AcceptMessage, Delivery.ConnectorsOk;
    Delivery.ConnectorsKept(san, db, AcceptStep(who, m, t, uuid));
  }

  lemma DispatchGood(db: Db, who: Identity, choice: Id, t: Times, lease: Id, correlation: Id, uuid: nat -> Id)
    requires Delivery.ConnectorsOk(db)
    ensures Delivery.ConnectorsOk(Result(db, DispatchNext(db, who, choice, t, lease, correlation, uuid)))
  {
    hide DispatchNext, Delivery.ConnectorsOk;
    Delivery.ConnectorsKept(x => x, db, DispatchStep(who, choice, t, lease, correlation, uuid));
  }

  lemma PendingGood(db: Db, who: Identity, after: nat, t: Times, uuid: nat -> Id)
    requires Delivery.ConnectorsOk(db)
    ensures Delivery.ConnectorsOk(Result(db, PendingMessages(db, who, after, t, uuid)))
  {
    hide PendingMessages, Delivery.ConnectorsOk;
    Delivery.ConnectorsKept(x => x, db, PendingStep(who, after, t, uuid));
  }

  lemma ReportGood(db: Db, who: Identity, detail: Id, t: Times, correlation: Id, uuid: nat -> Id)
    requires Delivery.ConnectorsOk(db)
    ensures Delivery.ConnectorsOk(Result(db, ReportFailure(db, who, detail, t, correlation, uuid)))
  {
    hide ReportFailure, Delivery.ConnectorsOk;
    Delivery.ConnectorsKept(x => x, db, FailureStep(who, detail, t, correlation, uuid));
  }

  lemma CancelGood(db: Db, owner: Id, id: Id, expected: nat, t: Times, nonce: Id, correlation: Id, uuid: nat -> Id)
    requires Delivery.ConnectorsOk(db)
    ensures Delivery.ConnectorsOk(Result(db, CancelAtomically(db, owner, id, expected, t, nonce, correlation, uuid)))
  {
    hide CancelAtomically, Delivery.ConnectorsOk;
    Delivery.ConnectorsKept(x => x, db, CancelStep(owner, id, expected, t, nonce, correlation, uuid));
  }

  lemma DecideGood(db: Db, i: DecideInput, t: Times, correlation: Id, uuid: nat -> Id)
    requires Delivery.ConnectorsOk(db)
    ensures Delivery.ConnectorsOk(Result(db, RecordDecision(db, i, t, correlation, uuid)))
  {
    hide RecordDecision, Delivery.ConnectorsOk;
    Delivery.ConnectorsKept(x => x, db, DecideStep(i, t, correlation, uuid));
  }
}
