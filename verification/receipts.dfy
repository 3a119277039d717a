/** Exactly-once admission: the receipt invariant of a connector, and replay. */
module Receipts {
  import opened Common
  import opened ServerTypes
  import opened OutboxRows
  import opened Accept

  // ----- the invariant -----

  /** Server rows occupy exactly the sequences 1..lastServer. */
  ghost predicate Dense(c: Connector) {
    c.lastServer <= MAX_SAFE && forall s :: s in c.server <==> 1 <= s <= c.lastServer
  }

  /** The stored response is still backed by its outbox row: the row carries the
      same content, or the expiry tombstone that replaced it. */
  ghost predicate Backed(server: map<nat, ServerRow>, m: ClientMessage, st: StoredResponse) {
    && st.correlation == m.correlation && 1 <= st.sequence <= MAX_SAFE && st.sequence in server
    && server[st.sequence].correlation == m.correlation
    && (server[st.sequence].body == st.body || server[st.sequence].body == EXPIRED_TOMBSTONE)
    && !IsExpiredCode(st.body) && !st.body.Offer? && PayloadParses(st.body)
  }

  ghost predicate Silent(row: ClientRow) { row.message.body.AckReport? && !row.durable }

  ghost predicate ResponseOk(cid: Id, server: map<nat, ServerRow>, row: ClientRow) {
    if Silent(row) then row.response.None?
    else
      && row.response.Some? && Backed(server, row.message, row.response.value)
      && Answers(cid, row.message, row.durable, row.coordination, row.response.value.body, row.response.value.sequence,
                 false)
  }

  ghost predicate AckOk(server: map<nat, ServerRow>, row: ClientRow) {
    && (row.receiptAck.Some?
        <==> (row.response.Some? && row.durable && (row.response.value.body.ErrorBody? || row.message.body.Sync?)))
    && (row.receiptAck.Some? ==>
          && Backed(server, row.message, row.receiptAck.value)
          && row.receiptAck.value.body == AckOf(row.message.sequence)
          && row.receiptAck.value.sequence == row.response.value.sequence + 1)
  }

  ghost predicate ReceiptOk(cid: Id, server: map<nat, ServerRow>, row: ClientRow) {
    && (row.coordination ==> row.durable) && (row.message.body.Sync? ==> row.coordination)
    && ResponseOk(cid, server, row) && AckOk(server, row)
  }

  ghost predicate Cites(row: ClientRow, s: int) {
    (row.response.Some? && row.response.value.sequence == s)
      || (row.receiptAck.Some? && row.receiptAck.value.sequence == s)
  }

  /** Receipts are keyed by their message and numbered 1..lastClient. */
  ghost predicate Numbered(client: map<Id, ClientRow>, lastClient: nat) {
    && |client| == lastClient
    && (forall k :: k in client ==> client[k].message.id == k && 1 <= client[k].message.sequence <= lastClient)
    && (forall k, k' :: k in client && k' in client && k != k' ==>
          client[k].message.sequence != client[k'].message.sequence)
  }

  /** No server sequence answers two requests. */
  ghost predicate CitedOnce(client: map<Id, ClientRow>, lastServer: nat) {
    && (forall k, k', s :: k in client && k' in client && Cites(client[k], s) && Cites(client[k'], s) ==> k == k')
    && (forall k, s :: k in client && Cites(client[k], s) ==> s <= lastServer)
  }

  ghost predicate ConnectorOk(cid: Id, c: Connector) {
    && Dense(c) && Numbered(c.client, c.lastClient) && CitedOnce(c.client, c.lastServer)
    && (c.coordination ==> c.durable)
    && forall k :: k in c.client ==> ReceiptOk(cid, c.server, c.client[k])
  }

  // ----- changes to outbox rows -----

  /** Rows stay at their sequence with their correlation; only an offer, or an
      expiry, replaces the content. */
  ghost predicate RowsKept(a: map<nat, ServerRow>, b: map<nat, ServerRow>) {
    forall s :: s in a ==>
      && s in b && b[s].correlation == a[s].correlation
      && (b[s].body == a[s].body || a[s].body.Offer? || b[s].body == EXPIRED_TOMBSTONE)
  }

  predicate IsCommand(b: ServerBody) { b.CancelCommand? || b.DecisionCommand? }

  /** Every command row of `b` stood in `a` already. */
  ghost predicate NoNewCommand(a: map<nat, ServerRow>, b: map<nat, ServerRow>) {
    forall s :: s in b && IsCommand(b[s].body) ==> s in a && a[s].body == b[s].body
  }

  lemma BackedKept(a: map<nat, ServerRow>, b: map<nat, ServerRow>, m: ClientMessage, st: StoredResponse)
    requires RowsKept(a, b) && Backed(a, m, st)
    ensures Backed(b, m, st)
  {}

  lemma ReceiptsKept(cid: Id, c: Connector, server: map<nat, ServerRow>)
    requires ConnectorOk(cid, c) && RowsKept(c.server, server)
    ensures forall k :: k in c.client ==> ReceiptOk(cid, server, c.client[k])
  {
    forall k | k in c.client ensures ReceiptOk(cid, server, c.client[k]) {
      ReceiptKept(cid, c.server, server, c.client[k]);
    }
  }

  lemma ReceiptKept(cid: Id, a: map<nat, ServerRow>, b: map<nat, ServerRow>, row: ClientRow)
    requires RowsKept(a, b) && ReceiptOk(cid, a, row)
    ensures ReceiptOk(cid, b, row)
  {
    if row.response.Some? { BackedKept(a, b, row.message, row.response.value); }
    if row.receiptAck.Some? { BackedKept(a, b, row.message, row.receiptAck.value); }
  }

  /** Only outbox rows changed, and by a permitted replacement or an append. */
  ghost predicate RowChange(c: Connector, c': Connector) {
    && c' == c.(lastServer := c'.lastServer, server := c'.server)
    && c.lastServer <= c'.lastServer && RowsKept(c.server, c'.server)
  }

  lemma RowChangeKeeps(cid: Id, c: Connector, c': Connector)
    requires ConnectorOk(cid, c) && RowChange(c, c') && Dense(c')
    ensures ConnectorOk(cid, c')
  {
    ReceiptsKept(cid, c, c'.server);
  }

  lemma EnqueueChange(c: Connector, body: ServerBody, correlation: Id, expiresAt: int, now: int, uuid: nat -> Id)
    requires Dense(c) && c.lastServer < MAX_SAFE
    ensures var c' := Enqueue(c, body, correlation, expiresAt, now, uuid);
            RowChange(c, c') && Dense(c') && c'.lastServer == c.lastServer + 1
  {}

  lemma TombstoneChange(c: Connector, jobs: map<Id, Job>, after: nat, now: int, uuid: nat -> Id)
    requires Dense(c)
    ensures var c' := TombstoneBatch(c, jobs, after, now, uuid);
            RowChange(c, c') && Dense(c') && c'.lastServer == c.lastServer && NoNewCommand(c.server, c'.server)
  {}

  lemma WithdrawChange(c: Connector, job: Id, lease: Id, now: int, uuid: nat -> Id)
    requires Dense(c)
    ensures var c' := WithdrawOffer(c, job, lease, now, uuid);
            RowChange(c, c') && Dense(c') && c'.lastServer == c.lastServer && NoNewCommand(c.server, c'.server)
  {}

  lemma AcknowledgeChange(c: Connector, upto: nat)
    requires Dense(c)
    ensures var c' := AcknowledgeUpTo(c, upto);
            RowChange(c, c') && Dense(c') && c'.lastServer == c.lastServer && NoNewCommand(c.server, c'.server)
  {}

  lemma AcknowledgeOneChange(c: Connector, sequence: nat)
    requires Dense(c)
    ensures var c' := AcknowledgeOne(c, sequence);
            RowChange(c, c') && Dense(c') && c'.lastServer == c.lastServer && NoNewCommand(c.server, c'.server)
  {}

  // ----- a new receipt -----

  /** The reply is one the request may receive at the next sequence. */
  ghost predicate ReplyOk(cid: Id, lastServer: nat, m: ClientMessage, durable: bool, coordination: bool, r: Reply) {
    && (m.body.AckReport? && !durable <==> r.first.None?)
    && (r.first.Some? ==>
          && Answers(cid, m, durable, coordination, r.first.value, lastServer + 1, false)
          && !IsExpiredCode(r.first.value) && !r.first.value.Offer? && !IsCommand(r.first.value))
    && (r.ack <==> (r.first.Some? && durable && (r.first.value.ErrorBody? || m.body.Sync?)))
  }

  /** The schema accepts the reply and the acknowledgement after it. */
  ghost predicate ReplyParses(m: ClientMessage, r: Reply) {
    (r.first.Some? ==> PayloadParses(r.first.value)) && PayloadParses(AckOf(m.sequence))
  }

  /** Appending one row that is not a command. */
  lemma EnqueueAdds(c: Connector, body: ServerBody, correlation: Id, expiresAt: int, now: int, uuid: nat -> Id)
    requires Dense(c) && c.lastServer < MAX_SAFE && !IsCommand(body)
    ensures var c' := Enqueue(c, body, correlation, expiresAt, now, uuid);
            && Dense(c') && RowsKept(c.server, c'.server) && NoNewCommand(c.server, c'.server)
            && c'.lastServer == c.lastServer + 1 && c'.lastServer in c'.server
            && c'.server[c'.lastServer].body == body && c'.server[c'.lastServer].correlation == correlation
            && (forall s :: s in c.server ==> c'.server[s] == c.server[s])
            && c' == c.(lastServer := c'.lastServer, server := c'.server)
  {}

  lemma AppendTwice(a: map<nat, ServerRow>, b: map<nat, ServerRow>, c: map<nat, ServerRow>)
    requires RowsKept(a, b) && NoNewCommand(a, b) && NoNewCommand(b, c)
    requires forall s :: s in b ==> s in c && c[s] == b[s]
    ensures RowsKept(a, c) && NoNewCommand(a, c)
  {}

  lemma NewRowOk(cid: Id, c: Connector, m: ClientMessage, durable: bool, coordination: bool, r: Reply, t: Times,
                 uuid: nat -> Id)
    requires Dense(c) && c.lastServer + Width(r) <= MAX_SAFE
    requires (coordination ==> durable) && (m.body.Sync? ==> coordination)
    requires ReplyOk(cid, c.lastServer, m, durable, coordination, r)
    ensures var c' := Receipt(c, m, durable, coordination, r, t, uuid);
            && Dense(c') && RowsKept(c.server, c'.server) && c'.lastServer == c.lastServer + Width(r)
            && NoNewCommand(c.server, c'.server)
            && m.id in c'.client && (ReplyParses(m, r) ==> ReceiptOk(cid, c'.server, c'.client[m.id]))
            && c'.client[m.id].message == m
            && (forall s :: Cites(c'.client[m.id], s) ==> c.lastServer < s <= c'.lastServer)
            && c'.client == c.client[m.id := c'.client[m.id]]
            && c' == c.(lastServer := c'.lastServer, server := c'.server, client := c'.client)
  {
    hide Enqueue, Answers, RowsKept, NoNewCommand, PayloadParses;
    if r.first.Some? {
      EnqueueAdds(c, r.first.value, m.correlation, t.now + MESSAGE_TTL_MS, t.now, uuid);
      if r.ack {
        var c1 := Enqueue(c, r.first.value, m.correlation, t.now + MESSAGE_TTL_MS, t.now, uuid);
        EnqueueAdds(c1, AckOf(m.sequence), m.correlation, t.after + MESSAGE_TTL_MS, t.now, uuid);
        AppendTwice(c.server, c1.server,
                    Enqueue(c1, AckOf(m.sequence), m.correlation, t.after + MESSAGE_TTL_MS, t.now, uuid).server);
      }
    } else {
      NothingAdded(c.server);
    }
  }

  lemma NothingAdded(server: map<nat, ServerRow>)
    ensures RowsKept(server, server) && NoNewCommand(server, server)
  {}

  lemma AddNumbered(client: map<Id, ClientRow>, lastClient: nat, row: ClientRow)
    requires Numbered(client, lastClient) && row.message.id !in client && row.message.sequence == lastClient + 1
    ensures Numbered(client[row.message.id := row], lastClient + 1)
  {}

  lemma AddCited(client: map<Id, ClientRow>, before: nat, lo: nat, hi: nat, id: Id, row: ClientRow)
    requires CitedOnce(client, before) && id !in client && before <= lo <= hi
    requires forall s :: Cites(row, s) ==> lo < s <= hi
    ensures CitedOnce(client[id := row], hi)
  {}

  lemma ReceiptAdds(cid: Id, c: Connector, c1: Connector, m: ClientMessage, durable: bool, coordination: bool, r: Reply,
                    t: Times, uuid: nat -> Id)
    requires ConnectorOk(cid, c) && m.id !in c.client && m.sequence == c.lastClient + 1
    requires Dense(c1) && RowsKept(c.server, c1.server) && c1.client == c.client && c1.lastClient == m.sequence
    requires c.lastServer <= c1.lastServer && (c1.coordination ==> c1.durable)
    requires c1.lastServer + Width(r) <= MAX_SAFE
    requires (coordination ==> durable) && (m.body.Sync? ==> coordination)
    requires ReplyOk(cid, c1.lastServer, m, durable, coordination, r) && ReplyParses(m, r)
    ensures ConnectorOk(cid, Receipt(c1, m, durable, coordination, r, t, uuid))
  {
    NewRowOk(cid, c1, m, durable, coordination, r, t, uuid);
    var c' := Receipt(c1, m, durable, coordination, r, t, uuid);
    assert RowsKept(c.server, c'.server);
    ReceiptsKept(cid, c, c'.server);
    AddNumbered(c.client, c.lastClient, c'.client[m.id]);
    AddCited(c.client, c.lastServer, c1.lastServer, c'.lastServer, m.id, c'.client[m.id]);
  }
}
