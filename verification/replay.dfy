/** Every admitted message keeps the receipt invariant; every exact duplicate
    replays its receipt and changes nothing else. */
module Replay {
  import opened Common
  import opened ServerTypes
  import opened OutboxRows
  import opened Business
  import opened Accept
  import opened Receipts

  // ----- what a verdict can be -----

  ghost predicate VerdictOk(c: Connector, book: Book, m: ClientMessage, coordination: bool, v: Verdict) {
    match v
    case Applied(b, k, withdrawn) =>
      && RowChange(c, k) && Dense(k) && k.lastServer == c.lastServer && NoNewCommand(c.server, k.server)
      && (withdrawn ==> m.body.Claim?)
      && (m.body.Sync? ==> m.body.syncJob in book.jobs)
    case DeadlinePassed(code, known) => known && RejectionFor(m.body, code, BusinessExpiredText, coordination)
    case Conflict(code, text) =>
      if m.body.Sync? then code.AuthorityUnavailableCode? && text.AuthorityUnavailableText?
      else coordination && RejectionFor(m.body, code, text, coordination)
    case Refused(_) => true
  }

  lemma ClaimVerdictOk(book: Book, c: Connector, who: Identity, m: ClientMessage, t: Times, durable: bool,
                       coordination: bool, uuid: nat -> Id)
    requires Dense(c) && m.body.Claim?
    ensures VerdictOk(c, book, m, coordination, ClaimVerdict(book, c, who, m, t, durable, coordination, uuid))
  {
    hide WithdrawOffer, HasOriginalOffer, HasExpiredOffer, LockedJob, RowChange, NoNewCommand;
    WithdrawChange(c, m.body.claimJob, m.body.claimLease, t.now, uuid);
    UnchangedRows(c);
  }

  lemma UnchangedRows(c: Connector)
    requires Dense(c)
    ensures RowChange(c, c) && NoNewCommand(c.server, c.server)
  {}

  lemma EventVerdictOk(san: string -> string, book: Book, c: Connector, who: Identity, m: ClientMessage, t: Times,
                       coordination: bool)
    requires Dense(c) && m.body.Event?
    ensures VerdictOk(c, book, m, coordination, EventVerdict(san, book, c, who, m, t, coordination))
  {}

  lemma AckVerdictOk(book: Book, c: Connector, m: ClientMessage, t: Times, coordination: bool)
    requires Dense(c) && m.body.AckReport? && m.body.ackSequence in c.server
    ensures VerdictOk(c, book, m, coordination, AckVerdict(book, c, m, t))
  {
    AcknowledgeOneChange(c, m.body.ackSequence);
  }

  lemma MessageVerdictOk(san: string -> string, book: Book, c: Connector, who: Identity, m: ClientMessage, t: Times,
                         durable: bool, coordination: bool, uuid: nat -> Id)
    requires Dense(c) && (m.body.AckReport? ==> m.body.ackSequence in c.server)
    ensures VerdictOk(c, book, m, coordination, MessageVerdict(san, book, c, who, m, t, durable, coordination, uuid))
  {
    hide ClaimVerdict, EventVerdict, AckVerdict, HasOriginalOffer, RowChange, NoNewCommand;
    UnchangedRows(c);
    match m.body
    case Claim(_, _, _) => ClaimVerdictOk(book, c, who, m, t, durable, coordination, uuid);
    case Event(_, _, _, _, _) => EventVerdictOk(san, book, c, who, m, t, coordination);
    case AckReport(_) => AckVerdictOk(book, c, m, t, coordination);
    case _ =>
  }

  // ----- admission keeps the invariant -----

  lemma AdvanceChange(c: Connector, jobs: map<Id, Job>, m: ClientMessage, durable: bool, coordination: bool, t: Times,
                      uuid: nat -> Id)
    requires Dense(c)
    ensures var c' := Advance(c, jobs, m, durable, coordination, t, uuid);
            && Dense(c') && RowsKept(c.server, c'.server) && c'.client == c.client && c'.lastServer == c.lastServer
            && c'.owner == c.owner && c'.lastClient == m.sequence && NoNewCommand(c.server, c'.server)
            && (if m.body.Hello? then c'.durable == durable && c'.coordination == coordination
                else c'.durable == c.durable && c'.coordination == c.coordination)
  {
    if m.body.Hello? {
      var c1 := c.(lastClient := m.sequence, durable := durable, coordination := coordination);
      AcknowledgeChange(c1, m.body.lastServer);
      TombstoneChange(AcknowledgeUpTo(c1, m.body.lastServer), jobs, m.body.lastServer, t.now, uuid);
    }
  }

  lemma ReplyIsOk(cid: Id, c: Connector, c1: Connector, book: Book, m: ClientMessage, durable: bool, coordination: bool,
                  v: Verdict, t: Times)
    requires VerdictOk(c, book, m, coordination, v) && (coordination ==> durable) && (m.body.Sync? ==> coordination)
    requires (m.body.Hello? ==> v.Applied?) && (m.body.AckReport? ==> v.Applied? || v.Refused?)
    requires !Settle(v, durable, coordination).Throw?
    ensures ReplyOk(cid, c1.lastServer, m, durable, coordination,
                    ReplyTo(cid, c1, book, m, durable, coordination, Settle(v, durable, coordination), t))
  {}

  /** Every reply that is admitted passes the protocol schema. */
  lemma ReplyIsParsed(cid: Id, c: Connector, book: Book, m: ClientMessage, durable: bool, coordination: bool,
                      s: Settled, t: Times)
    requires !s.Throw? && (m.body.Sync? && s.Effect? ==> m.body.syncJob in book.jobs)
    requires 1 <= m.sequence <= MAX_SAFE && (m.body.Hello? ==> m.body.lastServer <= c.lastServer)
    requires var r := ReplyTo(cid, c, book, m, durable, coordination, s, t);
             !Unparsable(r) && c.lastServer + Width(r) <= MAX_SAFE
    ensures ReplyParses(m, ReplyTo(cid, c, book, m, durable, coordination, s, t))
  {}

  lemma AdmitKeeps(cid: Id, c: Connector, book: Book, m: ClientMessage, durable: bool, coordination: bool, v: Verdict,
                   t: Times, uuid: nat -> Id)
    requires ConnectorOk(cid, c) && m.id !in c.client && m.sequence == c.lastClient + 1
    requires VerdictOk(c, book, m, coordination, v) && !Settle(v, durable, coordination).Throw?
    requires (coordination ==> durable) && (m.body.Sync? ==> coordination)
    requires (m.body.Hello? ==> v.Applied?) && (m.body.AckReport? ==> v.Applied? || v.Refused?)
    requires m.sequence <= MAX_SAFE && HelloMatches(cid, c, m.body)
    ensures var a := Admit(cid, c, book, m, durable, coordination, Settle(v, durable, coordination), t, uuid);
            a.connector.lastServer + Width(a.reply) <= MAX_SAFE && !Unparsable(a.reply) ==>
              ConnectorOk(cid, Receipt(a.connector, m, durable, coordination, a.reply, t, uuid))
  {
    var s := Settle(v, durable, coordination);
    var k := if s.Effect? then s.connector else c;
    var jobs := if s.Effect? then s.book.jobs else book.jobs;
    AdvanceChange(k, jobs, m, durable, coordination, t, uuid);
    var c1 := Advance(k, jobs, m, durable, coordination, t, uuid);
    var r := ReplyTo(cid, c1, book, m, durable, coordination, s, t);
    ReplyIsOk(cid, c, c1, book, m, durable, coordination, v, t);
    RowsKeptTransitive(c.server, k.server, c1.server);
    if c1.lastServer + Width(r) <= MAX_SAFE && !Unparsable(r) {
      ReplyIsParsed(cid, c1, book, m, durable, coordination, s, t);
      ReceiptAdds(cid, c, c1, m, durable, coordination, r, t, uuid);
    }
  }

  lemma AcceptNewKeeps(san: string -> string, db: Db, who: Identity, c: Connector, m: ClientMessage, t: Times,
                       uuid: nat -> Id)
    requires ConnectorOk(who.connector, c) && m.id !in c.client
    ensures var o := AcceptNew(san, db, who, c, m, t, uuid);
            o.Committed? ==>
              && who.connector in o.db.connectors
              && ConnectorOk(who.connector, o.db.connectors[who.connector])
              && o.db.connectors == db.connectors[who.connector := o.db.connectors[who.connector]]
  {
    var o := AcceptNew(san, db, who, c, m, t, uuid);
    if o.Committed? {
      var durable, coordination := Durable(c, m.body), Coordination(c, m.body);
      MessageVerdictOk(san, db.book, c, who, m, t, durable, coordination, uuid);
      AdmitKeeps(who.connector, c, db.book, m, durable, coordination,
                 MessageVerdict(san, db.book, c, who, m, t, durable, coordination, uuid), t, uuid);
    }
  }

  lemma RowsKeptTransitive(a: map<nat, ServerRow>, b: map<nat, ServerRow>, c: map<nat, ServerRow>)
    requires RowsKept(a, b) && RowsKept(b, c)
    ensures RowsKept(a, c)
  {}

  // ----- replay -----

  /** What a receipt is replayed as. */
  function ReplayOf(row: ClientRow): Acceptance {
    if row.response.None? then Acceptance(true, [], None)
    else
      var first := Delivered(row.response.value.sequence, row.response.value.body);
      if row.receiptAck.None? then Acceptance(true, [], Some(first))
      else Acceptance(true, [first], Some(Delivered(row.receiptAck.value.sequence, row.receiptAck.value.body)))
  }

  /** findOriginalResponse finds exactly what the receipt stored. */
  lemma OriginalFound(cid: Id, c: Connector, row: ClientRow, m: ClientMessage)
    requires ReceiptOk(cid, c.server, row) && m == row.message.(expiresAt := m.expiresAt)
    ensures FindOriginal(cid, c, m, row, false)
         == if Silent(row) then NoResponse else Found(row.response.value.sequence, row.response.value.body)
    ensures row.receiptAck.Some? ==>
              FindOriginal(cid, c, m, row, true) == Found(row.receiptAck.value.sequence, row.receiptAck.value.body)
  {
    if !Silent(row) { FindStored(cid, c, row, m, row.response.value, false); }
    if row.receiptAck.Some? { FindStored(cid, c, row, m, row.receiptAck.value, true); }
  }

  lemma FindStored(cid: Id, c: Connector, row: ClientRow, m: ClientMessage, st: StoredResponse, receipt: bool)
    requires (row.coordination ==> row.durable) && (m.body.Sync? ==> row.coordination)
             && m == row.message.(expiresAt := m.expiresAt)
    requires !(m.body.AckReport? && !row.durable)
    requires (if receipt then row.receiptAck else row.response) == Some(st)
    requires Backed(c.server, row.message, st)
    requires Answers(cid, row.message, row.durable, row.coordination, st.body, st.sequence, receipt)
    ensures FindOriginal(cid, c, m, row, receipt) == Found(st.sequence, st.body)
  {}

  /** Writing a stored response back leaves every receipt intact. */
  lemma RefreshKeeps(cid: Id, c: Connector, id: Id, st: StoredResponse, t: Times, uuid: nat -> Id)
    requires ConnectorOk(cid, c) && id in c.client
    requires c.client[id].response == Some(st) || c.client[id].receiptAck == Some(st)
    ensures st.sequence in c.server
    ensures var c' := RefreshIfNeeded(c, Found(st.sequence, st.body), t, uuid);
            ConnectorOk(cid, c') && c' == c.(server := c'.server)
  {
    assert ReceiptOk(cid, c.server, c.client[id]);
    var c' := RefreshIfNeeded(c, Found(st.sequence, st.body), t, uuid);
    forall k | k in c.client ensures ReceiptOk(cid, c'.server, c.client[k]) {
      RefreshKeepsReceipt(cid, c, c', id, k, st);
    }
  }

  lemma RefreshKeepsReceipt(cid: Id, c: Connector, c': Connector, id: Id, k: Id, st: StoredResponse)
    requires ConnectorOk(cid, c) && id in c.client && k in c.client
    requires c.client[id].response == Some(st) || c.client[id].receiptAck == Some(st)
    requires st.sequence in c.server && c'.server.Keys == c.server.Keys
    requires forall s :: s in c.server && s != st.sequence ==> c'.server[s] == c.server[s]
    requires c'.server[st.sequence].correlation == c.server[st.sequence].correlation
    requires c'.server[st.sequence].body == st.body || c'.server[st.sequence] == c.server[st.sequence]
    ensures ReceiptOk(cid, c'.server, c.client[k])
  {
    assert ReceiptOk(cid, c.server, c.client[k]);
    assert Cites(c.client[id], st.sequence);
    if k != id { assert !Cites(c.client[k], st.sequence); }
  }

  /** An exact duplicate of an accepted durable message is answered with the
      stored sequence, type and payload, followed by the stored
      acknowledgement, whatever happened to the outbox rows meanwhile; jobs,
      approvals, events, cursors and receipts stay as they are. */
  lemma DuplicateReplays(db: Db, cid: Id, m: ClientMessage, t: Times, uuid: nat -> Id)
    requires cid in db.connectors && ConnectorOk(cid, db.connectors[cid]) && m.id in db.connectors[cid].client
    requires var row := db.connectors[cid].client[m.id];
             IsExactDuplicate(row, m)
               && (if row.durable then m.expiresAt <= t.now + MESSAGE_TTL_MS else m.expiresAt > t.now)
    ensures var c := db.connectors[cid];
            var o := AcceptDuplicate(db, cid, c, m, c.client[m.id], t, uuid);
            && o.Committed? && o.reply == ReplayOf(c.client[m.id])
            && cid in o.db.connectors && ConnectorOk(cid, o.db.connectors[cid])
            && o.db.connectors[cid] == c.(server := o.db.connectors[cid].server)
            && o.db == db.(clock := t.after, connectors := db.connectors[cid := o.db.connectors[cid]])
  {
    hide FindOriginal, Refresh, Dense, CitedOnce;
    var c := db.connectors[cid];
    var row := c.client[m.id];
    assert m == row.message.(expiresAt := m.expiresAt);
    assert ReceiptOk(cid, c.server, row);
    OriginalFound(cid, c, row, m);
    if row.response.Some? {
      RefreshKeeps(cid, c, m.id, row.response.value, t, uuid);
      var c1 := RefreshIfNeeded(c, Found(row.response.value.sequence, row.response.value.body), t, uuid);
      if row.receiptAck.Some? {
        assert ReceiptOk(cid, c1.server, c1.client[m.id]);
        OriginalFound(cid, c1, row, m);
        RefreshKeeps(cid, c1, m.id, row.receiptAck.value, t, uuid);
      }
    }
  }
}
