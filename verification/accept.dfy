/** PostgresConnectorStore.acceptClientMessage: numbered client messages are
    admitted once, each with an immutable receipt; an exact duplicate replays
    that receipt (apps/control-plane/src/connector/outbox.ts). */
module Accept {
  import opened Common
  import opened ServerTypes
  import opened OutboxRows
  import opened Business

  // ----- replay of a receipt -----

  predicate IsExactDuplicate(row: ClientRow, m: ClientMessage) {
    && row.message.sequence == m.sequence
    && row.message.body == m.body
    && row.message.correlation == m.correlation
    && row.message.sentAt == m.sentAt
    && (row.durable || row.message.expiresAt == m.expiresAt)
  }

  predicate RejectionFor(b: ClientBody, code: ErrorCode, text: ErrorText, coordination: bool) {
    && (b.Claim? || b.Event? || b.ApprovalRequest? || b.CancelledReport?)
    && code == (if b.Claim? then ClaimRejected else EventRejected)
    && (|| text.BusinessExpiredText?
        || (coordination && (text.AuthorityChangedText? || text.BusinessLimitText?))
        || (b.Claim? && text.OfferCancelledText?))
  }

  predicate StateAnswers(b: ServerBody, m: ClientMessage) {
    && m.body.Sync? && b.State? && b.job == m.body.syncJob && b.requestedAttempt == m.body.syncAttempt
    && b.requestId == m.id && b.requestSequence == m.sequence && b.nonce == m.body.syncNonce
  }

  /** The response is one this request can have received. */
  predicate Answers(cid: Id, m: ClientMessage, durable: bool, coordination: bool, b: ServerBody, sequence: nat,
                    receipt: bool) {
    if m.body.Hello? then
      b.Welcome? && b.connectorId == cid && b.serverSequence == sequence && b.replayFrom == m.body.lastServer + 1
    else if m.body.Sync? && !receipt then
      coordination && (b == ErrorBody(AuthorityUnavailableCode, AuthorityUnavailableText) || StateAnswers(b, m))
    else if b.AckOf? then b.acknowledged == m.sequence
    else
      || (durable && b.ErrorBody? && RejectionFor(m.body, b.code, b.text, coordination))
      || (m.body.Claim? && b == ErrorBody(ClaimRejected, OfferCancelledText))
  }

  function Later(a: int, b: int): int { if a >= b then a else b }

  datatype Original = NoResponse | Broken | Found(sequence: nat, body: ServerBody)

  /** findOriginalResponse: Broken stands for its INTERNAL throws. */
  function FindOriginal(cid: Id, c: Connector, m: ClientMessage, row: ClientRow, receipt: bool): Original {
    if m.body.AckReport? && !row.durable then NoResponse
    else if (row.coordination && !row.durable) || (m.body.Sync? && !(row.durable && row.coordination)) then Broken
    else
      var stored := if receipt then row.receiptAck else row.response;
      if stored.None? then Broken
      else if row.coordination && stored.value.correlation != m.correlation then Broken
      else if stored.value.sequence < 1 || stored.value.sequence > MAX_SAFE || stored.value.sequence !in c.server then
        Broken
      else
        var current := c.server[stored.value.sequence];
        if row.coordination && IsExpiredCode(current.body) && current.body != EXPIRED_TOMBSTONE then Broken
        else if stored.value.correlation != current.correlation then Broken
        else if !IsExpiredCode(current.body) && current.body != stored.value.body then Broken
        else if current.correlation != m.correlation then Broken
        else if !MessageParses(stored.value.sequence, current.createdAt,
                               Later(current.expiresAt, current.createdAt + 1),
                               stored.value.body) then Broken
        else if !Answers(cid, m, row.durable, row.coordination, stored.value.body, stored.value.sequence, receipt) then
          Broken
        else Found(stored.value.sequence, stored.value.body)
  }

  function RefreshIfNeeded(c: Connector, o: Original, t: Times, uuid: nat -> Id): Connector
    requires o.Found? ==> o.sequence in c.server
  {
    if o.Found? && (c.server[o.sequence].expiresAt <= t.now || c.server[o.sequence].body != o.body)
    then Refresh(c, o.sequence, o.body, t.after, uuid) else c
  }

  function AcceptDuplicate(db: Db, cid: Id, c: Connector, m: ClientMessage, row: ClientRow, t: Times,
                           uuid: nat -> Id): Outcome<Acceptance> {
    if !IsExactDuplicate(row, m) then Aborted(ClientReplayMismatch)
    else if (if row.durable then m.expiresAt > t.now + MESSAGE_TTL_MS else m.expiresAt <= t.now) then
      Aborted(ClientReplayMismatch)
    else
      var original := FindOriginal(cid, c, m, row, false);
      if original.Broken? then Aborted(Internal)
      else if (m.body.Sync? || (row.coordination && original.Found? && original.body.ErrorBody?))
        && row.receiptAck.None? then
        Aborted(Internal)
      else
        var c1 := RefreshIfNeeded(c, original, t, uuid);
        if row.receiptAck.None? then
          Committed(db.(clock := t.after, connectors := db.connectors[cid := c1]),
                    Acceptance(true, [], if original.Found? then Some(Delivered(original.sequence, original.body))
                                         else None))
        else
          var ack := FindOriginal(cid, c1, m, row, true);
          if !original.Found? || !ack.Found? || !ack.body.AckOf? || ack.sequence != original.sequence + 1 then
            Aborted(Internal)
          else
            Committed(db.(clock := t.after, connectors := db.connectors[cid := RefreshIfNeeded(c1, ack, t, uuid)]),
                      Acceptance(true, [Delivered(original.sequence, original.body)],
                                 Some(Delivered(ack.sequence, ack.body))))
  }

  // ----- a new message -----

  predicate HelloMatches(cid: Id, c: Connector, b: ClientBody) {
    b.Hello? ==>
      && b.helloConnector == cid
      && (b.lastClient.Some? ==> b.lastClient.value == c.lastClient)
      && b.lastServer <= c.lastServer
  }

  function Durable(c: Connector, b: ClientBody): bool {
    if b.Hello? then b.helloDurable else c.durable
  }

  function Coordination(c: Connector, b: ClientBody): bool {
    Durable(c, b) && (if b.Hello? then b.helloCoordination else c.coordination)
  }

  datatype Settled =
    | Effect(book: Book, connector: Connector, withdrawn: bool)
    | Consume(code: ErrorCode, text: ErrorText)
    | Throw(error: StoreError)

  function ErrorOf(code: ErrorCode): StoreError {
    if code.ClaimRejected? then ClaimRefused else EventRefused
  }

  /** Which rejections are consumed with a receipt, and which roll back everything. */
  function Settle(v: Verdict, durable: bool, coordination: bool): Settled {
    match v
    case Applied(book, connector, withdrawn) => Effect(book, connector, withdrawn)
    case DeadlinePassed(code, known) =>
      if durable && known then Consume(code, BusinessExpiredText) else Throw(ErrorOf(code))
    case Conflict(code, text) => if durable && coordination then Consume(code, text) else Throw(ErrorOf(code))
    case Refused(error) => Throw(error)
  }

  /** What a newly admitted message is answered with: an optional first response
      and, for a durable error or a state answer, the acknowledgement after it. */
  datatype Reply = Reply(first: Option<ServerBody>, ack: bool)

  /** How many server sequences the reply occupies. */
  function Width(r: Reply): nat {
    (if r.first.Some? then 1 else 0) + (if r.ack then 1 else 0)
  }

  function StateBody(id: Id, job: Job, m: ClientMessage, observed: int): ServerBody
    requires m.body.Sync?
  {
    State(id, job.repository, job.mode, m.body.syncAttempt, job.attempt, job.status, job.revision, job.cancelRevision,
          job.lease, job.leaseExpiresAt, job.expiresAt, observed, observed + STATE_WINDOW_MS, m.id, m.sequence,
          m.body.syncNonce)
  }

  function ReplyTo(cid: Id, c: Connector, book: Book, m: ClientMessage, durable: bool, coordination: bool, s: Settled,
                   t: Times): Reply
    requires !s.Throw?
    requires m.body.Sync? && s.Effect? ==> m.body.syncJob in book.jobs
  {
    if m.body.Hello? then
      Reply(Some(Welcome(cid, c.lastServer + 1, m.body.lastServer + 1, durable, coordination)), false)
    else if s.Consume? then Reply(Some(ErrorBody(s.code, s.text)), durable)
    else if m.body.Sync? then Reply(Some(StateBody(m.body.syncJob, book.jobs[m.body.syncJob], m, t.after)), true)
    else if m.body.AckReport? && !durable then Reply(None, false)
    else if s.withdrawn then Reply(Some(ErrorBody(ClaimRejected, OfferCancelledText)), durable)
    else Reply(Some(AckOf(m.sequence)), false)
  }

  /** Enqueues the reply and stores it on the receipt of the message. */
  function Receipt(c: Connector, m: ClientMessage, durable: bool, coordination: bool, r: Reply, t: Times,
                   uuid: nat -> Id): Connector {
    var c1 := if r.first.Some? then Enqueue(c, r.first.value, m.correlation, t.now + MESSAGE_TTL_MS, t.now, uuid)
              else c;
    var c2 := if r.ack then Enqueue(c1, AckOf(m.sequence), m.correlation, t.after + MESSAGE_TTL_MS, t.now, uuid)
              else c1;
    var row := ClientRow(m, durable, coordination,
      if r.first.Some? then Some(StoredResponse(r.first.value, c1.lastServer, m.correlation)) else None,
      if r.ack then Some(StoredResponse(AckOf(m.sequence), c2.lastServer, m.correlation)) else None);
    c2.(client := c2.client[m.id := row])
  }

  function AcceptanceOf(c: Connector, m: ClientMessage, r: Reply): Acceptance {
    var first := if r.first.Some? then [Delivered(c.lastServer + 1, r.first.value)] else [];
    if r.ack then Acceptance(false, first, Some(Delivered(c.lastServer + |first| + 1, AckOf(m.sequence))))
    else Acceptance(false, [], if r.first.Some? then Some(first[0]) else None)
  }

  /** The cursor and capability update, and for hello the delivery marks and tombstones. */
  function Advance(c: Connector, jobs: map<Id, Job>, m: ClientMessage, durable: bool, coordination: bool, t: Times,
                   uuid: nat -> Id): Connector {
    var c1 := c.(lastClient := m.sequence);
    if m.body.Hello? then
      TombstoneBatch(AcknowledgeUpTo(c1.(durable := durable, coordination := coordination), m.body.lastServer),
                     jobs, m.body.lastServer, t.now, uuid)
    else c1
  }

  /** The tables, connector and reply of an admitted message, before its receipt is written. */
  datatype Admission = Admission(book: Book, connector: Connector, reply: Reply)

  function Admit(cid: Id, c: Connector, book: Book, m: ClientMessage, durable: bool, coordination: bool, s: Settled,
                 t: Times, uuid: nat -> Id): Admission
    requires !s.Throw?
    requires m.body.Sync? && s.Effect? ==> m.body.syncJob in book.jobs
  {
    var after := if s.Effect? then s.book else book;
    var c1 := Advance(if s.Effect? then s.connector else c, after.jobs, m, durable, coordination, t, uuid);
    Admission(after, c1, ReplyTo(cid, c1, book, m, durable, coordination, s, t))
  }

  function AdmissionReply(a: Admission, m: ClientMessage): Acceptance {
    if m.body.Hello? && a.reply.first.Some? then
      Acceptance(false, Batch(a.connector.server, m.body.lastServer, a.connector.lastServer, REPLAY_BATCH),
                 Some(Delivered(a.connector.lastServer + 1, a.reply.first.value)))
    else AcceptanceOf(a.connector, m, a.reply)
  }

  predicate Admissible(c: Connector, m: ClientMessage, durable: bool, now: int) {
    && m.expiresAt > now
    && (durable ==> m.expiresAt <= now + MESSAGE_TTL_MS)
  }

  /** A state answer that its own schema refuses. */
  predicate Unparsable(r: Reply) { r.first.Some? && r.first.value.State? && !PayloadParses(r.first.value) }

  function AcceptNew(san: string -> string, db: Db, who: Identity, c: Connector, m: ClientMessage, t: Times,
                     uuid: nat -> Id): Outcome<Acceptance> {
    var durable := Durable(c, m.body);
    var coordination := Coordination(c, m.body);
    if !Admissible(c, m, durable, t.now) then Aborted(ClientReplayMismatch)
    else if c.lastClient + 1 > MAX_SAFE then Aborted(Internal)
    else if m.sequence > c.lastClient + 1 then Aborted(ClientSequenceGap)
    else if m.sequence < c.lastClient + 1 then Aborted(ClientReplayMismatch)
    else if !HelloMatches(who.connector, c, m.body) then Aborted(ClientReplayMismatch)
    else if m.body.AckReport? && m.body.ackSequence !in c.server then Aborted(ClientReplayMismatch)
    else if m.body.Sync? && !coordination then Aborted(AuthorizationFailed)
    else
      var s := Settle(MessageVerdict(san, db.book, c, who, m, t, durable, coordination, uuid), durable, coordination);
      if s.Throw? then Aborted(s.error)
      else
        var a := Admit(who.connector, c, db.book, m, durable, coordination, s, t, uuid);
        if Unparsable(a.reply) then Aborted(SchemaRejected)
        else if a.connector.lastServer + Width(a.reply) > MAX_SAFE then Aborted(Internal)
        else
          Committed(
            db.(clock := t.after, book := a.book,
                connectors :=
                  db.connectors[who.connector := Receipt(a.connector, m, durable, coordination, a.reply, t, uuid)]),
            AdmissionReply(a, m))
  }

  predicate ServerUses(c: Connector, id: Id) {
    exists s :: s in c.server && c.server[s].messageId == id
  }

  function AcceptMessage(san: string -> string, db: Db, who: Identity, m: ClientMessage, t: Times,
                         uuid: nat -> Id): Outcome<Acceptance> {
    if who.connector !in db.connectors || db.connectors[who.connector].owner != who.owner then
      Aborted(AuthorizationFailed)
    else
      var c := db.connectors[who.connector];
      if m.id in c.client then AcceptDuplicate(db, who.connector, c, m, c.client[m.id], t, uuid)
      else if ServerUses(c, m.id) then Aborted(ClientReplayMismatch)
      else AcceptNew(san, db, who, c, m, t, uuid)
  }
}
