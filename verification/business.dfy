/** Business effects of client messages on jobs, approvals and job events
    (apps/control-plane/src/connector/outbox.ts). Each operation yields a
    verdict; the caller decides whether a rejection is consumed or thrown. */
module Business {
  import opened Common
  import opened JobState
  import opened ServerTypes
  import opened OutboxRows

  datatype Verdict =
    | Applied(book: Book, connector: Connector, withdrawn: bool)
    | DeadlinePassed(code: ErrorCode, known: bool)
    | Conflict(conflictCode: ErrorCode, text: ErrorText)
    | Refused(error: StoreError)

  function AppendEvent(book: Book, job: Id, e: JobEvent): Book {
    book.(events := book.events[job := (if job in book.events then book.events[job] else []) + [e]])
  }

  function WriteJob(book: Book, id: Id, job: Job, e: JobEvent): Book {
    AppendEvent(book.(jobs := book.jobs[id := job]), id, e)
  }

  /** The job a client message may touch: its owner's, and bound to this connector. */
  function LockedJob(book: Book, who: Identity, job: Id): Option<Job> {
    if job in book.jobs && book.jobs[job].owner == who.owner && book.jobs[job].connector == Some(who.connector)
    then Some(book.jobs[job]) else None
  }

  function ConflictOr(coordination: bool, code: ErrorCode, error: StoreError): Verdict {
    if coordination then Conflict(code, AuthorityChangedText) else Refused(error)
  }

  function LimitOr(coordination: bool, code: ErrorCode, error: StoreError): Verdict {
    if coordination then Conflict(code, BusinessLimitText) else Refused(error)
  }

  // ----- historical offers -----

  predicate OfferFor(e: JobEvent, connector: Id, attempt: nat, lease: Option<Id>) {
    e.OfferEvent? && e.connector == connector && e.attempt == attempt && (lease.None? || e.lease == lease.value)
  }

  /** Exactly one dispatch audit names this connector and attempt (and lease). */
  predicate HasOriginalOffer(book: Book, who: Identity, job: Id, attempt: nat, lease: Option<Id>) {
    && job in book.jobs && job in book.events
    && book.jobs[job].owner == who.owner
    && var es := book.events[job];
       exists i :: 0 <= i < |es| && OfferFor(es[i], who.connector, attempt, lease)
         && (forall k :: 0 <= k < |es| && OfferFor(es[k], who.connector, attempt, lease) ==> k == i)
         && es[i].owner == who.owner && es[i].repository == book.jobs[job].repository
  }

  /** The claimed lease is historical and its audited deadline has passed. */
  predicate HasExpiredOffer(book: Book, who: Identity, job: Id, attempt: nat, lease: Id, now: int) {
    && job in book.jobs && job in book.events
    && book.jobs[job].owner == who.owner && book.jobs[job].lease != Some(lease)
    && var es := book.events[job];
       exists i :: 0 <= i < |es| && es[i].OfferEvent? && es[i].lease == lease
         && (forall k :: 0 <= k < |es| && es[k].OfferEvent? && es[k].lease == lease ==> k == i)
         && es[i].owner == who.owner && es[i].connector == who.connector
         && es[i].repository == book.jobs[job].repository && es[i].attempt == attempt
         && es[i].leaseExpiresAt <= now
  }

  // ----- job.claim -----

  function ClaimVerdict(book: Book, c: Connector, who: Identity, m: ClientMessage, t: Times,
                        durable: bool, coordination: bool, uuid: nat -> Id): Verdict
    requires m.body.Claim?
  {
    var id := m.body.claimJob;
    var lease := m.body.claimLease;
    var locked := LockedJob(book, who, id);
    if durable && (locked.None? || locked.value.lease != Some(lease))
       && HasExpiredOffer(book, who, id, m.body.claimAttempt, lease, t.now) then
      DeadlinePassed(ClaimRejected, true)
    else if locked.Some? && locked.value.status.Cancelled? && locked.value.expiresAt > t.now
            && locked.value.lease == Some(lease) && m.body.claimAttempt == locked.value.attempt + 1 then
      Applied(book, WithdrawOffer(c, id, lease, t.now, uuid), true)
    else if locked.None? || !locked.value.status.Dispatched? || locked.value.lease != Some(lease)
            || locked.value.leaseExpiresAt.None? || m.body.claimAttempt != locked.value.attempt + 1 then
      if coordination && locked.Some? && HasOriginalOffer(book, who, id, m.body.claimAttempt, Some(lease))
      then Conflict(ClaimRejected, AuthorityChangedText) else Refused(ClaimRefused)
    else
      ClaimDispatched(book, c, who, m, locked.value, t, durable, coordination)
  }

  /** The offer is the current one: only deadlines and limits can still refuse it. */
  function ClaimDispatched(book: Book, c: Connector, who: Identity, m: ClientMessage, job: Job, t: Times,
                           durable: bool, coordination: bool): Verdict
    requires m.body.Claim? && job.leaseExpiresAt.Some?
  {
    var id := m.body.claimJob;
    var leaseEnd := job.leaseExpiresAt.value;
    if leaseEnd <= t.now || job.expiresAt <= t.now then
      DeadlinePassed(ClaimRejected, true)
    else if job.attempt == MAX_INT32 || job.revision == MAX_INT32 then
      LimitOr(coordination && HasOriginalOffer(book, who, id, m.body.claimAttempt, Some(m.body.claimLease)),
              ClaimRejected, ClaimRefused)
    else if leaseEnd <= t.write || job.expiresAt <= t.write || m.expiresAt <= t.write then
      if leaseEnd <= t.after || job.expiresAt <= t.after
      then DeadlinePassed(ClaimRejected, true) else Refused(ClaimRefused)
    else if durable && (leaseEnd <= t.after || job.expiresAt <= t.after) then
      DeadlinePassed(ClaimRejected, true)
    else
      Applied(
        WriteJob(book, id, job.(status := Running, attempt := m.body.claimAttempt, revision := job.revision + 1),
                 ClaimEvent(who.connector, m.body.claimAttempt)),
        c, false)
  }

  // ----- job.event -----

  function LowerChar(ch: char): char {
    if 'A' <= ch <= 'Z' then (ch as int + 32) as char else ch
  }

  function Lower(s: string): (r: string)
    ensures |r| == |s|
  {
    seq(|s|, i requires 0 <= i < |s| => LowerChar(s[i]))
  }

  /** The word that decides the status: an explicit status, or the event type. */
  function StatusWord(eventType: string, status: Option<string>): string {
    if status.Some? then status.value else Lower(eventType)
  }

  function TerminalStatusFor(word: string): Option<JobStatus> {
    if word in ["succeeded", "success", "completed", "job.succeeded"] then Some(Succeeded)
    else if word in ["failed", "failure", "job.failed"] then Some(Failed)
    else if word in ["cancelled", "canceled", "job.cancelled"] then Some(Cancelled)
    else None
  }

  function StatusFor(current: JobStatus, word: string): JobStatus {
    if TerminalStatusFor(word).Some? then TerminalStatusFor(word).value
    else if word == "waiting_approval" then WaitingApproval
    else if word == "running" || word == "resumed" then Running
    else current
  }

  /** Deadlines re-read after the write: business deadlines justify a consumed
      rejection, the transport deadline does not. */
  function AfterWrite(transport: int, business: seq<int>, after: int, applied: Verdict): Verdict {
    if exists i :: 0 <= i < |business| && business[i] <= after then DeadlinePassed(EventRejected, true)
    else if transport <= after then Refused(EventRefused)
    else applied
  }

  function EventVerdict(san: string -> string, book: Book, c: Connector, who: Identity, m: ClientMessage, t: Times,
                        coordination: bool): Verdict
    requires m.body.Event?
  {
    var id := m.body.eventJob;
    var locked := LockedJob(book, who, id);
    if locked.None? then Refused(EventRefused)
    else if locked.value.attempt != m.body.eventAttempt then ConflictOr(coordination, EventRejected, EventRefused)
    else
      var eventType := san(m.body.eventType);
      var status := if m.body.eventStatus.Some? then Some(san(m.body.eventStatus.value)) else None;
      EventOnJob(book, c, m, locked.value, ClientEvent(eventType, status), t, coordination)
  }

  function EventOnJob(book: Book, c: Connector, m: ClientMessage, job: Job, e: JobEvent, t: Times,
                      coordination: bool): Verdict
    requires m.body.Event? && e.ClientEvent?
  {
    var id := m.body.eventJob;
    var word := StatusWord(e.eventType, e.status);
    var next := StatusFor(job.status, word);
    var terminal := TerminalStatusFor(word).Some?;
    if Terminal(job.status) then
      if !terminal then ConflictOr(coordination, EventRejected, EventRefused)
      else AfterWrite(m.expiresAt, [], t.after, Applied(AppendEvent(book, id, e), c, false))
    else if !Claimed(job.status) then ConflictOr(coordination, EventRejected, EventRefused)
    else if job.expiresAt <= t.now then DeadlinePassed(EventRejected, true)
    else if next != job.status && !CanTransition(job.status, next) then
      ConflictOr(coordination, EventRejected, EventRefused)
    else if job.revision == MAX_INT32 then LimitOr(coordination, EventRejected, EventRefused)
    else
      var updated := job.(status := next, revision := job.revision + 1,
                          terminalAt := if terminal then Some(t.now) else job.terminalAt);
      AfterWrite(m.expiresAt, [job.expiresAt], t.after, Applied(WriteJob(book, id, updated, e), c, false))
  }

  // ----- approval.requested -----

  function ApprovalVerdict(book: Book, c: Connector, who: Identity, m: ClientMessage, t: Times,
                           coordination: bool): Verdict
    requires m.body.ApprovalRequest?
  {
    var b := m.body;
    var locked := LockedJob(book, who, b.approvalJob);
    if locked.None? then Refused(EventRefused)
    else
      var job := locked.value;
      if !(job.status.Running? || job.status.WaitingApproval?) || job.attempt != b.approvalAttempt then
        ConflictOr(coordination, EventRejected, EventRefused)
      else if job.revision == MAX_INT32 then LimitOr(coordination, EventRejected, EventRefused)
      else if b.approvalRevision != job.revision + 1 then ConflictOr(coordination, EventRejected, EventRefused)
      else if job.expiresAt <= t.now || b.approvalExpiresAt <= t.now then DeadlinePassed(EventRejected, true)
      else if b.approval in book.approvals then
        // The insert violates the primary key after the job was written; both
        // deadline checks come first when they already fail at the write.
        if job.expiresAt <= t.write || b.approvalExpiresAt <= t.write || m.expiresAt <= t.write
        then AfterWrite(m.expiresAt, [job.expiresAt, b.approvalExpiresAt], t.after, Refused(EventRefused))
        else Refused(EventRefused)
      else
        var updated := job.(status := WaitingApproval, revision := job.revision + 1);
        var entry := Approval(b.approvalJob, b.approvalAttempt, b.approvalRevision, b.approvalFingerprint,
                              b.approvalExpiresAt, None);
        var written := WriteJob(book, b.approvalJob, updated, ApprovalRequestedEvent(b.approval, b.approvalRevision));
        AfterWrite(m.expiresAt, [job.expiresAt, b.approvalExpiresAt], t.after,
                   Applied(written.(approvals := written.approvals[b.approval := entry]), c, false))
  }

  // ----- job.cancelled -----

  function CancelledVerdict(book: Book, c: Connector, who: Identity, m: ClientMessage, t: Times,
                            coordination: bool): Verdict
    requires m.body.CancelledReport?
  {
    var id := m.body.cancelledJob;
    var locked := LockedJob(book, who, id);
    if locked.None? then Refused(EventRefused)
    else
      var job := locked.value;
      if job.attempt != m.body.cancelledAttempt then ConflictOr(coordination, EventRejected, EventRefused)
      else if job.status.Cancelling? then
        if job.expiresAt <= t.now then DeadlinePassed(EventRejected, true)
        else if job.revision == MAX_INT32 then LimitOr(coordination, EventRejected, EventRefused)
        else
          var updated := job.(status := Cancelled, revision := job.revision + 1,
                              terminalAt := if job.terminalAt.Some? then job.terminalAt else Some(t.write));
          AfterWrite(m.expiresAt, [job.expiresAt], t.after,
                     Applied(WriteJob(book, id, updated, ClientCancelledEvent), c, false))
      else if !Terminal(job.status) then ConflictOr(coordination, EventRejected, EventRefused)
      else AfterWrite(m.expiresAt, [], t.after, Applied(AppendEvent(book, id, ClientCancelledEvent), c, false))
  }

  // ----- ack: delivery of an approval decision resumes the job -----

  predicate Resumes(book: Book, b: ServerBody, now: int, write: int) {
    && b.DecisionCommand? && b.decision.Approve?
    && b.decisionJob in book.jobs
    && var job := book.jobs[b.decisionJob];
       job.status.WaitingApproval? && job.attempt == b.decisionAttempt && job.revision == b.decisionRevision
       && job.expiresAt > now && job.expiresAt > write
  }

  function AckVerdict(book: Book, c: Connector, m: ClientMessage, t: Times): Verdict
    requires m.body.AckReport? && m.body.ackSequence in c.server
  {
    var body := c.server[m.body.ackSequence].body;
    var acked := AcknowledgeOne(c, m.body.ackSequence);
    if Resumes(book, body, t.now, t.write) then
      var job := book.jobs[body.decisionJob];
      if job.revision == MAX_INT32 then Refused(Internal)   // integer out of range in the database
      else
        Applied(WriteJob(book, body.decisionJob, job.(status := Running, revision := job.revision + 1),
                         ResumedEvent(body.approval, body.decisionAttempt, body.decisionRevision)), acked, false)
    else Applied(book, acked, false)
  }

  // ----- dispatch on the message type -----

  function MessageVerdict(san: string -> string, book: Book, c: Connector, who: Identity, m: ClientMessage, t: Times,
                          durable: bool, coordination: bool, uuid: nat -> Id): Verdict
    requires m.body.AckReport? ==> m.body.ackSequence in c.server
  {
    match m.body
    case Hello(_, _, _, _, _) => Applied(book, c, false)
    case Heartbeat => Applied(book, c, false)
    case Claim(_, _, _) => ClaimVerdict(book, c, who, m, t, durable, coordination, uuid)
    case Sync(job, attempt, _) =>
      if LockedJob(book, who, job).Some? then Applied(book, c, false)
      else if HasOriginalOffer(book, who, job, attempt, None) then
        Conflict(AuthorityUnavailableCode, AuthorityUnavailableText)
      else Refused(AuthorizationFailed)
    case Event(_, _, _, _, _) => EventVerdict(san, book, c, who, m, t, coordination)
    case ApprovalRequest(_, _, _, _, _, _) => ApprovalVerdict(book, c, who, m, t, coordination)
    case CancelledReport(_, _, _) => CancelledVerdict(book, c, who, m, t, coordination)
    case AckReport(_) => AckVerdict(book, c, m, t)
  }
}
