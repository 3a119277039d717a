/** The connector's durable journal: records and tables
    (packages/harness-plugin/src/store: plugin-store.ts, owned-intent.ts,
    owned-terminal.ts, schema.sql). One metadata table keyed by prefixed texts
    appears as one map per prefix. JSON appears decoded, so canonical JSON
    equality is equality of records; SHA-256 is injective, so a derived
    correlation id is the list of facts it digests. */
module JournalTypes {
  import opened Common
  import opened JobState
  import opened Deadlines

  /** A text that names a job or a session, up to letter case. */
  datatype Name = Name(base: Id, variant: nat)

  function Lower(n: Name): Name { n.(variant := 0) }

  /** A canonical (lower-case) UUID as text. */
  function Canonical(id: Id): Name { Name(id, 0) }

  datatype Phase = Prepared | Creating | Submitting | Started | Closed

  datatype Unavailable = SessionLost | PersistenceUnavailable

  datatype Owner = Owner(job: Id, attempt: nat, repository: Id, session: Id, generation: Id)

  datatype Evidence = Evidence(session: Id, messageId: Id, digest: Id, eventSequence: nat)

  datatype OfferRef = OfferRef(messageId: Id, sequence: nat, correlation: Id, sentAt: int, expiresAt: int)

  datatype Intent = Intent(
    owner: Owner, lease: Id, offer: OfferRef, initialMessageId: Id, digest: Id,
    phase: Phase, version: nat, mode: Option<Mode>, evidence: Option<Evidence>, unavailable: Option<Unavailable>)

  type Key = (Id, nat)

  function KeyOf(o: Owner): Key { (o.job, o.attempt) }

  // ----- intents -----

  predicate OwnerOk(o: Owner) { 1 <= o.attempt <= MAX_INT32 }

  /** The relationships between phase, mode and evidence. */
  predicate PhaseOk(v: Intent, phase: Phase) {
    if phase.Prepared? then v.mode.None? && v.evidence.None?
    else
      && v.mode.Some?
      && (if phase.Started? then
            && v.evidence.Some? && v.evidence.value.session == v.owner.session
            && v.evidence.value.messageId == v.initialMessageId && v.evidence.value.digest == v.digest
          else v.evidence.None?)
  }

  /** OwnedIntentSchema; a closed intent keeps the relationships it closed with. */
  predicate IntentOk(v: Intent) {
    && OwnerOk(v.owner) && v.version <= MAX_SAFE
    && 1 <= v.offer.sequence <= MAX_SAFE && v.offer.sentAt < v.offer.expiresAt
    && (v.evidence.Some? ==> v.evidence.value.eventSequence <= MAX_SAFE)
    && PhaseOk(v, if !v.phase.Closed? then v.phase
                  else if v.evidence.Some? then Started else if v.mode.None? then Prepared else Creating)
  }

  function PhaseText(p: Phase): string {
    match p
    case Prepared => "prepared"
    case Creating => "creating"
    case Submitting => "submitting"
    case Started => "started"
    case Closed => "terminal"
  }

  /** The mapping statuses that only the journal may write. */
  predicate JournalStatus(s: string) { s == "prepared" || s == "creating" || s == "submitting" || s == "started" }

  function StatusText(s: JobStatus): string {
    match s
    case Succeeded => "succeeded"
    case Failed => "failed"
    case Cancelled => "cancelled"
    case Expired => "expired"
    case _ => "open"
  }

  // ----- messages to the server -----

  datatype Detail =
    | Minimized(content: Id)                            // fits the minimized projection
    | UnavailableDetail(reason: Unavailable)            // exactly stage "failed" and the reason
    | Free(content: Id, status: Option<string>)         // any other event payload

  /** The minimized projection, which has no status field. */
  predicate FitsProjection(d: Detail) { d.Minimized? || d.UnavailableDetail? }

  predicate HasStatus(d: Detail) { d.Free? && d.status.Some? }

  datatype CancelReason = ByOwner | OtherReason(text: Id)

  datatype Body =
    | JobEvent(job: Id, attempt: nat, eventType: string, harness: bool, detail: Detail)
    | JobCancelled(job: Id, attempt: nat, reason: CancelReason)
    | JobSync(job: Id, attempt: nat, nonce: Id)
    | JobClaim(job: Id, attempt: nat, lease: Id)
    | ApprovalRequested(job: Id, attempt: nat, approval: Id)
    | OtherBody(content: Id)

  /** A correlation id: drawn at random, or derived from a terminal operation. */
  datatype Correlation = Random(id: Id) | Derived(owner: Owner, kind: nat, identity: Option<nat>)

  datatype Expiry = NoExpiry | BadExpiry(text: Id) | At(time: int)

  /** The stored JSON of an outbound message. `shaped` says that everything but
      its two times fits the protocol schema. */
  datatype Payload = Payload(
    shaped: bool, messageId: Id, sequence: nat, correlation: Correlation,
    sentAt: Option<int>, expiry: Expiry, body: Body)

  /** ConnectorClientMessageSchema accepts it. */
  predicate Parses(p: Payload) {
    p.shaped && p.sentAt.Some? && p.expiry.At? && p.sentAt.value < p.expiry.time
  }

  datatype OutRow = OutRow(messageId: Id, payload: Payload, acknowledged: bool)

  // ----- terminal operations and records -----

  datatype Operation =
    | Native(outcome: JobStatus, eventSequence: nat)    // outcome succeeded or failed
    | Cancel(cancelRevision: nat)
    | Lost(reason: Unavailable)
    | ReconcileOp

  datatype Binding = Binding(owner: Owner, expectedVersion: nat, operation: Operation)

  function CorrelationFor(owner: Owner, op: Operation): Correlation {
    match op
    case Native(_, s) => Derived(owner, 0, Some(s))
    case Cancel(r) => Derived(owner, 1, Some(r))
    case Lost(_) => Derived(owner, 2, None)
    case ReconcileOp => Derived(owner, 3, None)
  }

  datatype Proposal = Proposal(binding: Binding, correlation: Correlation, payload: Body)

  datatype TerminalRecord =
    | Local(predecessor: Intent, committedVersion: nat, operation: Operation, correlation: Correlation,
            payload: Body, status: JobStatus, outId: Id, outSequence: nat, outSentAt: int)
    | Remote(predecessor: Intent, committedVersion: nat, status: JobStatus, state: StatePayload)

  /** validateTerminalProposal: the status the proposal closes with. */
  function ProposalStatus(p: Proposal): Option<JobStatus> {
    var op, o := p.binding.operation, p.binding.owner;
    if op.ReconcileOp? || p.correlation != CorrelationFor(o, op) then None
    else if !(p.payload.JobEvent? || p.payload.JobCancelled?) then None
    else if p.payload.job != o.job || p.payload.attempt != o.attempt then None
    else if op.Cancel? then (if p.payload.JobCancelled? && p.payload.reason.ByOwner? then Some(Cancelled) else None)
    else if !p.payload.JobEvent? || !p.payload.harness then None
    else if op.Native? then
      if (op.outcome.Succeeded? && p.payload.eventType == "job.succeeded")
        || (op.outcome.Failed? && p.payload.eventType == "job.failed")
      then (if FitsProjection(p.payload.detail) then Some(op.outcome) else None) else None
    else if p.payload.eventType == "job.failed" && p.payload.detail == UnavailableDetail(op.reason) then Some(Failed)
    else None
  }

  /** A native result needs started evidence no later than it; an unavailability
      needs the same recorded reason. */
  predicate OperationFits(v: Intent, op: Operation) {
    && (op.Native? ==> v.phase.Started? && v.unavailable.None? && v.evidence.Some?
                       && op.eventSequence >= v.evidence.value.eventSequence)
    && (op.Lost? ==> v.unavailable == Some(op.reason))
  }

  /** parseTerminalRecord accepts it. */
  predicate RecordOk(r: TerminalRecord) {
    && !r.predecessor.phase.Closed? && IntentOk(r.predecessor)
    && r.predecessor.version < MAX_SAFE && r.committedVersion == r.predecessor.version + 1
    && (r.Local? ==>
          && OperationFits(r.predecessor, r.operation) && 1 <= r.outSequence <= MAX_SAFE
          && ProposalStatus(Proposal(Binding(r.predecessor.owner, r.predecessor.version, r.operation), r.correlation,
                                     r.payload)) == Some(r.status))
    && (r.Remote? ==>
          && SchemaOk(r.state) && Terminal(r.status) && r.state.status == r.status
          && r.predecessor.mode == Some(r.state.mode) && r.state.jobId == r.predecessor.owner.job
          && r.state.repositoryId == r.predecessor.owner.repository
          && r.state.currentAttempt == r.predecessor.owner.attempt
          && r.state.requestedAttempt == r.predecessor.owner.attempt)
  }

  function Successor(r: TerminalRecord): Intent {
    r.predecessor.(phase := Closed, version := r.committedVersion)
  }

  // ----- messages from the server -----

  datatype Response =
    | StateResponse(job: Id, requestedAttempt: nat, requestId: Id, requestSequence: nat, nonce: Id, content: Id)
    | ErrorResponse(code: string, text: string)
    | OfferResponse(offer: OfferedJob)
    | OtherResponse(content: Id)

  datatype OfferedJob = OfferedJob(job: Id, attempt: nat, repository: Id, lease: Id, request: Id)

  datatype ServerMessage = ServerMessage(messageId: Id, sequence: nat, correlation: Correlation, sentAt: int,
                                         expiresAt: int, body: Response)

  /** A stored body: what the protocol schema makes of it, or a text it rejects. */
  datatype Stored = Read(message: ServerMessage) | Unreadable(text: Id)

  datatype InRow = InRow(messageId: Id, body: Stored)

  datatype RequestType = SyncRequest | ClaimRequest | EventRequest | ApprovalRequest | CancelledRequest

  datatype Receipt = Receipt(
    requestSequence: nat, requestId: Id, requestCorrelation: Correlation, requestType: RequestType,
    responseSequence: nat, responseCorrelation: Correlation, response: Response)

  // ----- the tables -----

  datatype Mapping = Mapping(session: Name, status: string)

  datatype Tables = Tables(
    intents: map<Key, Intent>,
    active: map<Id, Owner>,
    generations: map<Id, Owner>,
    terminals: map<Key, TerminalRecord>,
    mappings: map<(Name, nat), Mapping>,
    outbound: map<nat, OutRow>,
    profiles: set<nat>,
    proven: nat,
    inbound: map<nat, InRow>,
    delivered: map<Id, nat>,
    receipts: map<nat, Receipt>)

  const Empty: Tables := Tables(map[], map[], map[], map[], map[], map[], {}, 0, map[], map[], map[])
}
