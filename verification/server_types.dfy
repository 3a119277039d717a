/** Tables and messages of the control plane. A database row is a record, a
    table is a map, and a transaction is a function from one database to the
    next. JSON values appear already decoded, so canonical JSON equality is
    equality of records, and the SHA-256 digest of a client payload is the
    payload itself (an injective digest). */
module ServerTypes {
  import opened Common
  import opened JobState

  const LEASE_MS := 30_000
  const MESSAGE_TTL_MS := 60_000
  const STATE_WINDOW_MS := 2_000
  const TOMBSTONE_RETENTION_MS := 2_592_000_000
  const REPLAY_BATCH := 100

  datatype Identity = Identity(owner: Id, connector: Id)

  /** Database time read at three moments of one transaction. */
  datatype Times = Times(now: int, write: int, after: int) {
    predicate Ordered() { now <= write <= after }
  }

  datatype Policy = Policy(owner: Id, enabled: bool, maxConcurrency: nat)

  datatype Job = Job(
    owner: Id,
    connector: Option<Id>,
    repository: Id,
    mode: Mode,
    status: JobStatus,
    revision: nat,
    cancelRevision: Option<nat>,
    attempt: nat,
    lease: Option<Id>,
    leaseExpiresAt: Option<int>,
    expiresAt: int,
    terminalAt: Option<int>)

  datatype Decision = Approve | Reject

  datatype Approval = Approval(
    job: Id,
    attempt: nat,
    revision: nat,
    fingerprint: Id,
    expiresAt: int,
    decision: Option<Decision>)

  /** One job event. The control plane's own events carry fields that the
      public allowlist strips from client payloads, so a client event can never
      be mistaken for one of them. */
  datatype JobEvent =
    | OfferEvent(owner: Id, repository: Id, connector: Id, attempt: nat, lease: Id, leaseExpiresAt: int)
    | ClaimEvent(claimant: Id, claimAttempt: nat)
    | ApprovalRequestedEvent(requested: Id, requestRevision: nat)
    | ApprovalDecidedEvent(decided: Id, outcome: Decision)
    | ResumedEvent(resumedBy: Id, resumedAttempt: nat, resumedRevision: nat)
    | CancelEvent(cancelRevision: nat)
    | ClientCancelledEvent
    | ClientEvent(eventType: string, status: Option<string>)

  datatype ErrorCode =
    | ClaimRejected | EventRejected | AuthorityUnavailableCode
    | MessageExpired | JobCancelledCode | ProtocolFailure(detail: Id)

  datatype ErrorText =
    | BusinessExpiredText | AuthorityChangedText | BusinessLimitText
    | AuthorityUnavailableText | OfferCancelledText | ExpiredBeforeDeliveryText
    | ProtocolErrorText

  datatype ServerBody =
    | Welcome(connectorId: Id, serverSequence: nat, replayFrom: nat, durable: bool, coordination: bool)
    | State(job: Id, repository: Id, mode: Mode, requestedAttempt: nat, currentAttempt: nat, status: JobStatus,
            revision: nat, cancelRevision: Option<nat>, lease: Option<Id>, leaseExpiresAt: Option<int>,
            expiresAt: int, observedAt: int, validUntil: int, requestId: Id, requestSequence: nat, nonce: Id)
    | Offer(offerJob: Id, offerAttempt: nat, offerLease: Id, offerRepository: Id)
    | CancelCommand(cancelJob: Id, cancelAttempt: nat, cancelAt: nat, cancelNonce: Id)
    | DecisionCommand(approval: Id, decisionJob: Id, decisionAttempt: nat, decisionRevision: nat,
                      fingerprint: Id, decision: Decision)
    | AckOf(acknowledged: nat)
    | ErrorBody(code: ErrorCode, text: ErrorText)

  /** What an expired row is replaced by; a withdrawn offer carries its own code. */
  const EXPIRED_TOMBSTONE := ErrorBody(MessageExpired, ExpiredBeforeDeliveryText)
  const CANCELLED_TOMBSTONE := ErrorBody(JobCancelledCode, OfferCancelledText)

  /** What the protocol schema demands of a server payload beyond its shape. Ids
      are opaque and times are instants here, so their text forms do not appear. */
  predicate PayloadParses(b: ServerBody) {
    match b
    case Welcome(_, serverSequence, replayFrom, _, _) => serverSequence <= MAX_SAFE && replayFrom <= MAX_SAFE
    case State(_, _, _, requested, current, _, revision, cancel, lease, leaseEnd, _, observed, until, _, sequence, _) =>
      && 1 <= requested <= MAX_INT32 && current <= MAX_INT32 && revision <= MAX_INT32
      && (cancel.Some? ==> cancel.value <= revision)
      && (lease.Some? <==> leaseEnd.Some?)
      && until - observed == STATE_WINDOW_MS
      && 1 <= sequence <= MAX_SAFE
    case Offer(_, attempt, _, _) => 1 <= attempt <= MAX_SAFE
    case CancelCommand(_, attempt, revision, _) => 1 <= attempt <= MAX_SAFE && revision <= MAX_SAFE
    case DecisionCommand(_, _, attempt, revision, _, _) => 1 <= attempt <= MAX_SAFE && revision <= MAX_SAFE
    case AckOf(sequence) => 1 <= sequence <= MAX_SAFE
    case ErrorBody(_, _) => true
  }

  /** The schema accepts the whole message: its number, its two times, its payload. */
  predicate MessageParses(sequence: nat, sentAt: int, expiresAt: int, b: ServerBody) {
    1 <= sequence <= MAX_SAFE && sentAt < expiresAt && PayloadParses(b)
  }

  predicate IsExpiredCode(b: ServerBody) { b.ErrorBody? && b.code.MessageExpired? }

  datatype ServerRow = ServerRow(
    messageId: Id,
    body: ServerBody,
    correlation: Id,
    expiresAt: int,
    createdAt: int,
    acknowledged: bool)

  datatype ClientBody =
    | Hello(helloConnector: Id, helloDurable: bool, helloCoordination: bool,
            lastServer: nat, lastClient: Option<nat>)
    | Heartbeat
    | Claim(claimJob: Id, claimAttempt: nat, claimLease: Id)
    | Sync(syncJob: Id, syncAttempt: nat, syncNonce: Id)
    | Event(eventJob: Id, eventAttempt: nat, eventType: string, eventStatus: Option<string>, eventDetail: Id)
    | ApprovalRequest(approval: Id, approvalJob: Id, approvalAttempt: nat, approvalRevision: nat,
                      approvalFingerprint: Id, approvalExpiresAt: int)
    | CancelledReport(cancelledJob: Id, cancelledAttempt: nat, cancelledReason: Id)
    | AckReport(ackSequence: nat)

  datatype ClientMessage = ClientMessage(
    id: Id, sequence: nat, correlation: Id, sentAt: int, expiresAt: int, body: ClientBody)

  /** The immutable copy of a response kept on the receipt of its request. */
  datatype StoredResponse = StoredResponse(body: ServerBody, sequence: nat, correlation: Id)

  /** A durable receipt, keyed by message id (unique per connector). */
  datatype ClientRow = ClientRow(
    message: ClientMessage,
    durable: bool,
    coordination: bool,
    response: Option<StoredResponse>,
    receiptAck: Option<StoredResponse>)

  datatype Connector = Connector(
    owner: Id,
    durable: bool,
    coordination: bool,
    lastClient: nat,
    lastServer: nat,
    client: map<Id, ClientRow>,
    server: map<nat, ServerRow>)

  /** The business tables: what a rejected message must leave untouched. */
  datatype Book = Book(
    jobs: map<Id, Job>,
    approvals: map<Id, Approval>,
    events: map<Id, seq<JobEvent>>)

  datatype CreateKey = CreateKey(owner: Id, request: Id)
  datatype CreateRecord = CreateRecord(digest: Id, job: Id)

  datatype Db = Db(
    clock: int,
    book: Book,
    connectors: map<Id, Connector>,
    policies: map<Id, Policy>,
    creations: map<CreateKey, CreateRecord>)

  datatype StoreError =
    | AuthorizationFailed | ClientSequenceGap | ClientReplayMismatch
    | ClaimRefused | EventRefused | Internal | SchemaRejected
    | NotFound | RevisionConflict | OwnerMismatch | ApprovalExpired
    | ApprovalMismatch | ApprovalAlreadyDecided | IdempotencyConflict

  /** A transaction either commits a new database with a reply, or throws and
      leaves the database as it was. */
  datatype Outcome<+T> = Committed(db: Db, reply: T) | Aborted(error: StoreError)

  function Result<T>(db: Db, o: Outcome<T>): Db {
    if o.Committed? then o.db else db
  }

  /** A stored server message as handed to the gateway. */
  datatype Delivered = Delivered(sequence: nat, body: ServerBody)

  datatype Acceptance = Acceptance(duplicate: bool, replay: seq<Delivered>, response: Option<Delivered>)
}
