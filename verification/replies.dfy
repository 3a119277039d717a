/** What a newly admitted message is admitted by and answered with
    (apps/control-plane/src/connector/outbox.ts, lines 1759 to 2127). */
module Replies {
  import opened Common
  import opened JobState
  import opened ServerTypes
  import opened OutboxRows
  import opened Business
  import opened Accept
  import opened Effects

  // ----- admission -----

  /** The message may be taken up now: in time, next in order, and true to what
      the connector and the control plane know of each other. */
  predicate Presentable(who: Identity, c: Connector, m: ClientMessage, now: int) {
    var durable := if m.body.Hello? then m.body.helloDurable else c.durable;
    var coordination := durable && (if m.body.Hello? then m.body.helloCoordination else c.coordination);
    && m.expiresAt > now && (durable ==> m.expiresAt <= now + 60_000)
    && c.lastClient < MAX_SAFE && m.sequence == c.lastClient + 1
    && (m.body.Hello? ==>
          && m.body.helloConnector == who.connector && m.body.lastServer <= c.lastServer
          && (m.body.lastClient.Some? ==> m.body.lastClient.value == c.lastClient))
    && (m.body.AckReport? ==> m.body.ackSequence in c.server)
    && (m.body.Sync? ==> coordination)
  }

  /** Nothing else is ever admitted, and a message that skips ahead is a gap. */
  lemma OnlyPresentable(san: string -> string, db: Db, who: Identity, c: Connector, m: ClientMessage, t: Times,
                        uuid: nat -> Id)
    ensures var o := AcceptNew(san, db, who, c, m, t, uuid);
            && (o.Committed? ==> Presentable(who, c, m, t.now))
            && (m.sequence > c.lastClient + 1 ==>
                  o == Aborted(ClientSequenceGap) || o == Aborted(ClientReplayMismatch) || o == Aborted(Internal))
            && (Presentable(who, c, m.(sequence := c.lastClient + 1), t.now) && m.sequence > c.lastClient + 1 ==>
                  o == Aborted(ClientSequenceGap))
            && (m.sequence <= c.lastClient < MAX_SAFE ==> o == Aborted(ClientReplayMismatch))
  {
    hide MessageVerdict, Admit, Settle, Receipt, AdmissionReply, Unparsable;
  }

  /** A message that is none of the connector's, or bears the id of a row sent to it,
      is never taken up; one with a known id is only ever replayed. */
  lemma IdsStayApart(san: string -> string, db: Db, who: Identity, m: ClientMessage, t: Times, uuid: nat -> Id)
    requires AcceptMessage(san, db, who, m, t, uuid).Committed?
    ensures who.connector in db.connectors && db.connectors[who.connector].owner == who.owner
    ensures var c, o := db.connectors[who.connector], AcceptMessage(san, db, who, m, t, uuid);
            && (o.reply.duplicate <==> m.id in c.client)
            && (!o.reply.duplicate ==> forall s :: s in c.server ==> c.server[s].messageId != m.id)
            && (o.reply.duplicate ==> o.db.book == db.book && c.client[m.id].message.body == m.body
                                      && c.client[m.id].message.sequence == m.sequence
                                      && c.client[m.id].message.correlation == m.correlation)
  {
    hide FindOriginal, RefreshIfNeeded, MessageVerdict, Admit, Settle, Receipt, Unparsable, Admissible, HelloMatches;
  }

  // ----- what becomes of it -----

  /** The disposition of a presentable message by its verdict: an effect is kept, a
      missed deadline is consumed under durable receipts, a conflict under durable
      receipts with coordination, and everything else is thrown. */
  lemma DisposedBy(v: Verdict, durable: bool, coordination: bool)
    ensures var s := Settle(v, durable, coordination);
            && (v.Applied? ==> s == Effect(v.book, v.connector, v.withdrawn))
            && (v.Refused? ==> s == Throw(v.error))
            && (v.DeadlinePassed? ==>
                  if durable && v.known then s == Consume(v.code, BusinessExpiredText)
                  else s == Throw(if v.code == ClaimRejected then ClaimRefused else EventRefused))
            && (v.Conflict? ==>
                  if durable && coordination then s == Consume(v.conflictCode, v.text)
                  else s == Throw(if v.conflictCode == ClaimRejected then ClaimRefused else EventRefused))
  {}

  /** A presentable message is taken up exactly when its verdict is not thrown,
      its answer parses, and there is room for it. */
  lemma TakenUp(san: string -> string, db: Db, who: Identity, c: Connector, m: ClientMessage, t: Times, uuid: nat -> Id)
    requires Presentable(who, c, m, t.now)
    ensures var durable, coordination := Durable(c, m.body), Coordination(c, m.body);
            var s := Settle(MessageVerdict(san, db.book, c, who, m, t, durable, coordination, uuid), durable,
                            coordination);
            var o := AcceptNew(san, db, who, c, m, t, uuid);
            && (s.Throw? ==> o == Aborted(s.error))
            && (!s.Throw? && c.lastServer + 2 <= MAX_SAFE && !m.body.Sync? ==> o.Committed?)
            && (o.Committed? ==> o.db.book == if s.Effect? then s.book else db.book)
  {
    hide MessageVerdict, Receipt, AdmissionReply, PayloadParses;
    RoomFor(san, db.book, who, c, m, t, uuid);
  }

  lemma RoomFor(san: string -> string, book: Book, who: Identity, c: Connector, m: ClientMessage, t: Times,
                uuid: nat -> Id)
    requires m.body.AckReport? ==> m.body.ackSequence in c.server
    ensures var durable, coordination := Durable(c, m.body), Coordination(c, m.body);
            var v := MessageVerdict(san, book, c, who, m, t, durable, coordination, uuid);
            && (v.Applied? ==> v.connector.lastServer == c.lastServer)
            && (m.body.Sync? && v.Applied? ==> m.body.syncJob in book.jobs)
            && (m.body.Hello? ==> v == Applied(book, c, false))
  {
    hide HasOriginalOffer, HasExpiredOffer, WriteJob, AppendEvent;
  }

  // ----- the answers -----

  /** The verdict a message meets, and how it is settled. */
  function SettledFor(san: string -> string, db: Db, who: Identity, c: Connector, m: ClientMessage, t: Times,
                      uuid: nat -> Id): Settled
    requires m.body.AckReport? ==> m.body.ackSequence in c.server
  {
    var durable, coordination := Durable(c, m.body), Coordination(c, m.body);
    Settle(MessageVerdict(san, db.book, c, who, m, t, durable, coordination, uuid), durable, coordination)
  }

  /** A single answer at the next sequence, or an answer and its acknowledgement
      at the next two. */
  predicate Answered(r: Acceptance, c: Connector, m: ClientMessage, body: ServerBody, acknowledged: bool) {
    && !r.duplicate
    && (if acknowledged then
          && r.replay == [Delivered(c.lastServer + 1, body)]
          && r.response == Some(Delivered(c.lastServer + 2, AckOf(m.sequence)))
        else (m.body.Hello? || r.replay == []) && r.response == Some(Delivered(c.lastServer + 1, body)))
  }

  /** Every admitted message but a job.sync, by its kind and disposition. */
  lemma AnswersByDisposition(san: string -> string, db: Db, who: Identity, c: Connector, m: ClientMessage, t: Times,
                             uuid: nat -> Id)
    requires AcceptNew(san, db, who, c, m, t, uuid).Committed? && Presentable(who, c, m, t.now)
    ensures var o, s := AcceptNew(san, db, who, c, m, t, uuid), SettledFor(san, db, who, c, m, t, uuid);
            && !s.Throw?
            && (m.body.Hello? ==>
                  Answered(o.reply, c, m,
                           Welcome(who.connector, c.lastServer + 1, m.body.lastServer + 1, m.body.helloDurable,
                                                  m.body.helloDurable && m.body.helloCoordination), false))
            && (s.Consume? ==> Answered(o.reply, c, m, ErrorBody(s.code, s.text), true))
            && (s.Effect? && s.withdrawn ==>
                  Answered(o.reply, c, m, ErrorBody(ClaimRejected, OfferCancelledText), c.durable))
            && (s.Effect? && !s.withdrawn && !m.body.Hello? && !m.body.Sync? ==>
                  if m.body.AckReport? && !c.durable then o.reply == Acceptance(false, [], None)
                  else Answered(o.reply, c, m, AckOf(m.sequence), false))
  {
    hide MessageVerdict, Receipt, PayloadParses, Batch, TombstoneBatch, AcknowledgeUpTo;
    RoomFor(san, db.book, who, c, m, t, uuid);
    WithdrawnIsClaim(san, db.book, who, c, m, t, uuid);
    if m.body.Hello? { TombstonesKeepCursor(c, db.book.jobs, m, t, uuid); }
  }

  lemma WithdrawnIsClaim(san: string -> string, book: Book, who: Identity, c: Connector, m: ClientMessage, t: Times,
                         uuid: nat -> Id)
    requires m.body.AckReport? ==> m.body.ackSequence in c.server
    ensures var v := MessageVerdict(san, book, c, who, m, t, Durable(c, m.body), Coordination(c, m.body), uuid);
            && (v.Applied? && v.withdrawn ==> m.body.Claim?)
            && (v.Conflict? || v.DeadlinePassed? ==> !m.body.Hello? && !m.body.AckReport? && !m.body.Heartbeat?)
            && (v.DeadlinePassed? ==> v.known)
  {
    hide HasOriginalOffer, HasExpiredOffer, WriteJob, AppendEvent;
  }

  lemma TombstonesKeepCursor(c: Connector, jobs: map<Id, Job>, m: ClientMessage, t: Times, uuid: nat -> Id)
    requires m.body.Hello?
    ensures var d := Advance(c, jobs, m, Durable(c, m.body), Coordination(c, m.body), t, uuid);
            && d.lastServer == c.lastServer && d.lastClient == m.sequence && d.client == c.client && d.owner == c.owner
            && d.durable == m.body.helloDurable && d.coordination == (m.body.helloDurable && m.body.helloCoordination)
  {
    hide Candidates;
  }

  /** The answer to a job.sync tells the connector the job exactly as the tables
      hold it, as of the database time read for it. */
  predicate Tells(b: ServerBody, id: Id, job: Job, m: ClientMessage, observed: int)
    requires m.body.Sync?
  {
    && b.State? && b.job == id && b.repository == job.repository && b.mode == job.mode
    && b.currentAttempt == job.attempt && b.status == job.status && b.revision == job.revision
    && b.cancelRevision == job.cancelRevision && b.lease == job.lease && b.leaseExpiresAt == job.leaseExpiresAt
    && b.expiresAt == job.expiresAt && b.observedAt == observed && b.validUntil == observed + 2_000
    && b.requestedAttempt == m.body.syncAttempt && b.requestId == m.id && b.requestSequence == m.sequence
    && b.nonce == m.body.syncNonce
  }

  /** A job.sync on a bound job is answered with its state and an acknowledgement,
      and changes no job; on any other it is answered that authority is
      unavailable, if the job was once offered to this connector. */
  lemma SyncTellsTheJob(san: string -> string, db: Db, who: Identity, c: Connector, m: ClientMessage, t: Times,
                        uuid: nat -> Id)
    requires AcceptNew(san, db, who, c, m, t, uuid).Committed? && m.body.Sync?
    ensures var o, id := AcceptNew(san, db, who, c, m, t, uuid), m.body.syncJob;
            && o.db.book == db.book && |o.reply.replay| == 1 && !o.reply.duplicate
            && o.reply.replay[0].sequence == c.lastServer + 1
            && o.reply.response == Some(Delivered(c.lastServer + 2, AckOf(m.sequence)))
            && (if Bound(db.book, who, id) then Tells(o.reply.replay[0].body, id, db.book.jobs[id], m, t.after)
                else o.reply.replay[0].body == ErrorBody(AuthorityUnavailableCode, AuthorityUnavailableText)
                     && AuditedOnce(db.book, who, id, m.body.syncAttempt, None))
  {
    hide Receipt, HasOriginalOffer, PayloadParses, AuditedOnce;
    OriginalOfferExactly(db.book, who, m.body.syncJob, m.body.syncAttempt, None);
  }

  /** The new rows of an answer. */
  ghost predicate RowsStored(c: Connector, c': Connector, m: ClientMessage, t: Times) {
    forall s :: c.lastServer < s <= c'.lastServer ==>
      && s in c'.server && c'.server[s].correlation == m.correlation && !c'.server[s].acknowledged
      && c'.server[s].createdAt == t.now
      && c'.server[s].expiresAt == (if s == c.lastServer + 1 then t.now else t.after) + 60_000
  }

  /** Whatever is sent carries the correlation of the request and lives for a
      minute from the time it was read; the receipt holds the very message. */
  lemma AnswersAreStored(san: string -> string, db: Db, who: Identity, c: Connector, m: ClientMessage, t: Times,
                         uuid: nat -> Id)
    requires AcceptNew(san, db, who, c, m, t, uuid).Committed? && Presentable(who, c, m, t.now)
    ensures var o := AcceptNew(san, db, who, c, m, t, uuid);
            && who.connector in o.db.connectors
            && o.db == db.(clock := t.after, book := o.db.book,
                           connectors := db.connectors[who.connector := o.db.connectors[who.connector]])
            && var c' := o.db.connectors[who.connector];
               && c'.lastClient == m.sequence && m.id in c'.client
               && c'.client == c.client[m.id := c'.client[m.id]] && c'.client[m.id].message == m
               && c'.client[m.id].durable == Durable(c, m.body)
               && c'.client[m.id].coordination == Coordination(c, m.body)
               && RowsStored(c, c', m, t)
  {
    var durable, coordination := Durable(c, m.body), Coordination(c, m.body);
    CommittedShape(san, db, who, c, m, t, uuid);
    hide AcceptNew, Admit, Settle, SettledFor, MessageVerdict, Receipt, RowsStored, Presentable;
    AdmittedCursor(san, db, who, c, m, t, uuid);
    var a := Admit(who.connector, c, db.book, m, durable, coordination, SettledFor(san, db, who, c, m, t, uuid), t,
                   uuid);
    RepliesStored(a.connector, m, durable, coordination, a.reply, t, uuid);
    SameBase(a.connector, c, Receipt(a.connector, m, durable, coordination, a.reply, t, uuid), m, t);
  }

  lemma SameBase(a: Connector, c: Connector, c': Connector, m: ClientMessage, t: Times)
    requires a.lastServer == c.lastServer && RowsStored(a, c', m, t)
    ensures RowsStored(c, c', m, t)
  {}

  /** What the commit of a new message consists of. */
  lemma CommittedShape(san: string -> string, db: Db, who: Identity, c: Connector, m: ClientMessage, t: Times,
                       uuid: nat -> Id)
    requires AcceptNew(san, db, who, c, m, t, uuid).Committed?
    ensures m.body.AckReport? ==> m.body.ackSequence in c.server
    ensures var durable, coordination := Durable(c, m.body), Coordination(c, m.body);
            var o, s := AcceptNew(san, db, who, c, m, t, uuid), SettledFor(san, db, who, c, m, t, uuid);
            && !s.Throw? && (m.body.Sync? && s.Effect? ==> m.body.syncJob in db.book.jobs)
            && var a := Admit(who.connector, c, db.book, m, durable, coordination, s, t, uuid);
               && o.db == db.(clock := t.after, book := a.book, connectors := db.connectors[who.connector :=
                    Receipt(a.connector, m, durable, coordination, a.reply, t, uuid)])
               && o.reply == AdmissionReply(a, m)
  {
    hide Admit, Receipt, AdmissionReply, HasOriginalOffer, HasExpiredOffer, ClaimVerdict, EventVerdict;
    hide ApprovalVerdict, CancelledVerdict, Unparsable;
  }

  lemma OnlyRows(san: string -> string, book: Book, who: Identity, c: Connector, m: ClientMessage, t: Times,
                 uuid: nat -> Id)
    requires m.body.AckReport? ==> m.body.ackSequence in c.server
    ensures var v := MessageVerdict(san, book, c, who, m, t, Durable(c, m.body), Coordination(c, m.body), uuid);
            v.Applied? ==> v.connector == c.(server := v.connector.server)
  {
    hide HasOriginalOffer, HasExpiredOffer, WriteJob, AppendEvent;
  }

  lemma AdmittedCursor(san: string -> string, db: Db, who: Identity, c: Connector, m: ClientMessage, t: Times,
                       uuid: nat -> Id)
    requires Presentable(who, c, m, t.now) && !SettledFor(san, db, who, c, m, t, uuid).Throw?
    requires var s := SettledFor(san, db, who, c, m, t, uuid);
             m.body.Sync? && s.Effect? ==> m.body.syncJob in db.book.jobs
    ensures var durable, coordination := Durable(c, m.body), Coordination(c, m.body);
            var a := Admit(who.connector, c, db.book, m, durable, coordination,
                           SettledFor(san, db, who, c, m, t, uuid), t, uuid);
            && a.connector.lastServer == c.lastServer && a.connector.lastClient == m.sequence
            && a.connector.client == c.client
            && (a.reply.ack ==> a.reply.first.Some?)
  {
    hide MessageVerdict, TombstoneBatch, AcknowledgeUpTo;
    OnlyRows(san, db.book, who, c, m, t, uuid);
    RoomFor(san, db.book, who, c, m, t, uuid);
    if m.body.Hello? { TombstonesKeepCursor(c, db.book.jobs, m, t, uuid); }
  }

  lemma RepliesStored(c: Connector, m: ClientMessage, durable: bool, coordination: bool, r: Reply, t: Times,
                      uuid: nat -> Id)
    requires r.ack ==> r.first.Some?
    ensures var c' := Receipt(c, m, durable, coordination, r, t, uuid);
            && c'.lastClient == c.lastClient && m.id in c'.client
            && c'.client == c.client[m.id := c'.client[m.id]] && c'.client[m.id].message == m
            && c'.client[m.id].durable == durable && c'.client[m.id].coordination == coordination
            && RowsStored(c, c', m, t)
  {}

  // ----- replayed answers -----

  /** What a stored answer to this request can be. */
  predicate CanAnswer(cid: Id, m: ClientMessage, durable: bool, coordination: bool, b: ServerBody, sequence: nat,
                      receipt: bool) {
    match b
    case Welcome(connector, serverSequence, replayFrom, _, _) =>
      m.body.Hello? && connector == cid && serverSequence == sequence && replayFrom == m.body.lastServer + 1
    case State(job, _, _, attempt, _, _, _, _, _, _, _, _, _, id, number, nonce) =>
      && m.body.Sync? && !receipt && coordination && job == m.body.syncJob && attempt == m.body.syncAttempt
      && id == m.id && number == m.sequence && nonce == m.body.syncNonce
    case AckOf(number) => !m.body.Hello? && !(m.body.Sync? && !receipt) && number == m.sequence
    case ErrorBody(code, text) =>
      || (m.body.Sync? && !receipt && coordination && code == AuthorityUnavailableCode
          && text == AuthorityUnavailableText)
      || (m.body.Claim? && code == ClaimRejected && text == OfferCancelledText)
      || (&& durable && (m.body.Claim? || m.body.Event? || m.body.ApprovalRequest? || m.body.CancelledReport?)
          && code == (if m.body.Claim? then ClaimRejected else EventRejected)
          && (text == BusinessExpiredText || (coordination && text in {AuthorityChangedText, BusinessLimitText})))
    case _ => false
  }

  lemma AnswersExactly(cid: Id, m: ClientMessage, durable: bool, coordination: bool, b: ServerBody, sequence: nat,
                       receipt: bool)
    ensures Answers(cid, m, durable, coordination, b, sequence, receipt)
       <==> CanAnswer(cid, m, durable, coordination, b, sequence, receipt)
  {}

  /** A stored answer is found exactly if it is one the request can have received, was
      stored under the request's own profile and correlation, and its row still holds
      it or the expiry notice that replaced it. */
  lemma OriginalExactly(cid: Id, c: Connector, m: ClientMessage, row: ClientRow, receipt: bool)
    ensures var f, stored := FindOriginal(cid, c, m, row, receipt), if receipt then row.receiptAck else row.response;
            && (f.NoResponse? <==> m.body.AckReport? && !row.durable)
            && (f.Found? ==> stored.Some? && f == Found(stored.value.sequence, stored.value.body))
            && (f.Found? <==>
                  && !f.NoResponse? && (row.coordination ==> row.durable)
                  && (m.body.Sync? ==> row.durable && row.coordination)
                  && stored.Some? && 1 <= stored.value.sequence <= MAX_SAFE && stored.value.sequence in c.server
                  && var current := c.server[stored.value.sequence];
                     && stored.value.correlation == m.correlation == current.correlation
                     && (|| current.body == stored.value.body
                         || (current.body.ErrorBody? && current.body.code == MessageExpired))
                     && (row.coordination && current.body.ErrorBody? && current.body.code == MessageExpired ==>
                           current.body.text == ExpiredBeforeDeliveryText)
                     && PayloadParses(stored.value.body)
                     && CanAnswer(cid, m, row.durable, row.coordination, stored.value.body, stored.value.sequence,
                                  receipt))
  {
    hide Answers, CanAnswer, PayloadParses;
    var stored := if receipt then row.receiptAck else row.response;
    if stored.Some? {
      AnswersExactly(cid, m, row.durable, row.coordination, stored.value.body, stored.value.sequence, receipt);
    }
  }

  /** Which repetitions count: everything but the expiry is the same, and without
      durable receipts that too. */
  lemma RepetitionExactly(row: ClientRow, m: ClientMessage)
    requires row.message.id == m.id
    ensures IsExactDuplicate(row, m) <==> m == row.message.(expiresAt := m.expiresAt)
                                          && (!row.durable ==> m.expiresAt == row.message.expiresAt)
  {}

  /** What the protocol schema accepts of each server payload. */
  lemma PayloadExactly(b: ServerBody)
    ensures PayloadParses(b) <==>
              match b
              case Welcome(_, s, r, _, _) => s <= 9007199254740991 && r <= 9007199254740991
              case State(_, _, _, requested, current, _, revision, cancel, lease, end, _, observed, until, _, number,
                         _) =>
                && 1 <= requested <= 2147483647 && current <= 2147483647 && revision <= 2147483647
                && (cancel.Some? ==> cancel.value <= revision) && (lease.Some? <==> end.Some?)
                && until == observed + 2_000 && 1 <= number <= 9007199254740991
              case Offer(_, attempt, _, _) => 1 <= attempt <= 9007199254740991
              case CancelCommand(_, attempt, revision, _) =>
                1 <= attempt <= 9007199254740991 && revision <= 9007199254740991
              case DecisionCommand(_, _, attempt, revision, _, _) =>
                1 <= attempt <= 9007199254740991 && revision <= 9007199254740991
              case AckOf(number) => 1 <= number <= 9007199254740991
              case ErrorBody(_, _) => true
  {}
}
