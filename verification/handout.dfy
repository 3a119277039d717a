/** What a connection is handed from the outbox: the next rows in order, none of
    them stale (apps/control-plane/src/connector/outbox.ts, lines 661 to 744,
    1968 to 2002 and 2297 to 2321), and what the sender does with them. */
module Handout {
  import opened Common
  import opened JobState
  import opened ServerTypes
  import opened OutboxRows
  import opened Accept
  import opened Dispatch
  import opened ServerRuns
  import opened Receipts
  import opened Replies
  import Replay
  import Delivery
  import Sender

  // ----- the batch -----

  /** A batch of stored rows is the consecutive run after the cursor, cut at the limit. */
  lemma {:induction false} BatchIsTheNextRows(rows: map<nat, ServerRow>, after: nat, hi: nat, limit: nat)
    requires forall s :: after < s <= hi ==> s in rows
    ensures |Batch(rows, after, hi, limit)| == if hi <= after then 0 else Min(limit, hi - after)
    ensures forall s :: after < s <= after + |Batch(rows, after, hi, limit)| ==>
              s in rows && Batch(rows, after, hi, limit)[s - after - 1] == Delivered(s, rows[s].body)
    decreases hi + 1 - after
  {
    if hi > after && limit > 0 {
      BatchIsTheNextRows(rows, after + 1, hi, limit - 1);
      var rest := Batch(rows, after + 1, hi, limit - 1);
      assert Batch(rows, after, hi, limit) == [Delivered(after + 1, rows[after + 1].body)] + rest;
    }
  }

  // ----- stale rows -----

  /** The row has expired, or offers a job that has ended. */
  predicate Stale(r: ServerRow, jobs: map<Id, Job>, now: int) {
    || r.expiresAt <= now
    || (r.body.Offer? && r.body.offerJob in jobs
        && jobs[r.body.offerJob].status in {Succeeded, Failed, Cancelled, Expired})
  }

  /** What a stale row is replaced by: kept thirty days under its own sequence and
      correlation, it says that the job was cancelled or that it expired. */
  predicate Buried(r: ServerRow, r': ServerRow, jobs: map<Id, Job>, now: int) {
    && r' == r.(messageId := r'.messageId, body := r'.body, expiresAt := now + 30 * 24 * 60 * 60 * 1000)
    && r'.body == if r.body.Offer? && r.body.offerJob in jobs && jobs[r.body.offerJob].status == Cancelled
                  then ErrorBody(JobCancelledCode, OfferCancelledText)
                  else ErrorBody(MessageExpired, ExpiredBeforeDeliveryText)
  }

  lemma {:induction false} EarlyCandidates(rows: map<nat, ServerRow>, jobs: map<Id, Job>, now: int, from: nat, hi: nat,
                                           limit: nat)
    ensures forall s :: from <= s < from + limit && s <= hi && Candidate(rows, jobs, now, s) ==>
              s in Candidates(rows, jobs, now, from, hi, limit)
    decreases hi + 1 - from
  {
    if from <= hi && limit > 0 {
      var here := Candidate(rows, jobs, now, from);
      EarlyCandidates(rows, jobs, now, from + 1, hi, if here then limit - 1 else limit);
    }
  }

  lemma StaleIsCandidate(rows: map<nat, ServerRow>, jobs: map<Id, Job>, now: int, s: nat)
    requires s in rows
    ensures Candidate(rows, jobs, now, s) <==> Stale(rows[s], jobs, now)
  {}

  /** Of the hundred rows after the cursor every stale one is replaced, and no other
      row below the last of them is touched. */
  lemma StaleRowsBuried(c: Connector, jobs: map<Id, Job>, after: nat, now: int, uuid: nat -> Id, s: nat)
    requires s in c.server
    ensures var c' := TombstoneBatch(c, jobs, after, now, uuid);
            && c'.server.Keys == c.server.Keys && c' == c.(server := c'.server)
            && (s <= after ==> c'.server[s] == c.server[s])
            && (after < s <= after + 100 && s <= c.lastServer ==>
                  if Stale(c.server[s], jobs, now) then Buried(c.server[s], c'.server[s], jobs, now)
                  else c'.server[s] == c.server[s])
            && (c'.server[s] == c.server[s] || Buried(c.server[s], c'.server[s], jobs, now))
            && (c'.server[s] != c.server[s] ==> after < s <= c.lastServer && Stale(c.server[s], jobs, now))
  {
    EarlyCandidates(c.server, jobs, now, after + 1, c.lastServer, 100);
    StaleIsCandidate(c.server, jobs, now, s);
    hide Candidate, Stale;
  }

  lemma BuriedIsFresh(r: ServerRow, r': ServerRow, jobs: map<Id, Job>, now: int)
    requires Buried(r, r', jobs, now)
    ensures !Stale(r', jobs, now)
  {}

  // ----- handing out -----

  /** The next rows after the cursor, at most a hundred, in order, each as it stands
      after stale rows were replaced; none of them is stale. */
  ghost predicate HandsOut(c: Connector, c': Connector, jobs: map<Id, Job>, after: nat, now: int,
                           batch: seq<Delivered>) {
    && |batch| == (if c.lastServer <= after then 0 else Min(100, c.lastServer - after))
    && forall s :: after < s <= after + |batch| ==>
         && s in c.server && s in c'.server && batch[s - after - 1] == Delivered(s, c'.server[s].body)
         && !Stale(c'.server[s], jobs, now)
         && (if Stale(c.server[s], jobs, now) then Buried(c.server[s], c'.server[s], jobs, now)
             else c'.server[s] == c.server[s])
  }

  lemma BatchHandsOut(c: Connector, jobs: map<Id, Job>, after: nat, now: int, uuid: nat -> Id)
    requires Dense(c)
    ensures var c' := TombstoneBatch(c, jobs, after, now, uuid);
            HandsOut(c, c', jobs, after, now, Batch(c'.server, after, c'.lastServer, REPLAY_BATCH))
  {
    var c' := TombstoneBatch(c, jobs, after, now, uuid);
    forall s | after < s <= c.lastServer ensures s in c'.server { StaleRowsBuried(c, jobs, after, now, uuid, s); }
    assert c'.lastServer == c.lastServer;
    BatchIsTheNextRows(c'.server, after, c'.lastServer, REPLAY_BATCH);
    var batch := Batch(c'.server, after, c'.lastServer, REPLAY_BATCH);
    hide TombstoneBatch, Batch, Stale, Buried;
    forall s | after < s <= after + |batch|
      ensures s in c.server && !Stale(c'.server[s], jobs, now)
      ensures if Stale(c.server[s], jobs, now) then Buried(c.server[s], c'.server[s], jobs, now)
              else c'.server[s] == c.server[s]
    {
      StaleRowsBuried(c, jobs, after, now, uuid, s);
      if Stale(c.server[s], jobs, now) { BuriedIsFresh(c.server[s], c'.server[s], jobs, now); }
    }
  }

  /** At every moment of every run, pendingServerMessages hands an authenticated
      connector exactly its next rows. */
  lemma PendingHandsOut(san: string -> string, db: Db, steps: seq<Step>, who: Identity, after: nat, t: Times,
                        uuid: nat -> Id)
    requires Initial(db)
    ensures var d := Run(san, db, steps);
            var o := PendingMessages(d, who, after, t, uuid);
            && (o.Committed? <==> who.connector in d.connectors && d.connectors[who.connector].owner == who.owner)
            && (o.Committed? ==>
                  && who.connector in o.db.connectors
                  && HandsOut(d.connectors[who.connector], o.db.connectors[who.connector], d.book.jobs, after, t.now,
                              o.reply))
  {
    Delivery.InitialOk(db);
    Delivery.ConnectorsRun(san, db, steps);
    var d := Run(san, db, steps);
    hide Run, HandsOut, TombstoneBatch, Batch;
    if who.connector in d.connectors {
      assert ConnectorOk(who.connector, d.connectors[who.connector]);
      BatchHandsOut(d.connectors[who.connector], d.book.jobs, after, t.now, uuid);
    }
  }

  // ----- hello -----

  /** Marking rows as delivered changes nothing else about them. */
  lemma MarkedRows(c: Connector, upto: nat)
    ensures var c' := AcknowledgeUpTo(c, upto);
            && c' == c.(server := c'.server) && c'.server.Keys == c.server.Keys
            && forall s :: s in c.server ==>
                 c'.server[s] == if s <= upto then c.server[s].(acknowledged := true) else c.server[s]
  {}

  lemma HandsOutSameRows(a: Connector, c: Connector, d: Connector, e: Connector, jobs: map<Id, Job>, after: nat,
                         now: int,
                         batch: seq<Delivered>)
    requires HandsOut(a, d, jobs, after, now, batch) && a.lastServer == c.lastServer && a.server.Keys == c.server.Keys
    requires forall s :: s in c.server && s > after ==> c.server[s] == a.server[s]
    requires forall s :: s in d.server ==> s in e.server && e.server[s] == d.server[s]
    ensures HandsOut(c, e, jobs, after, now, batch)
  {
    hide Stale, Buried;
  }

  /** A hello newly accepted at any moment of any run marks as delivered exactly the
      rows it reports, and is handed the next ones before its welcome. */
  lemma HelloHandsOut(san: string -> string, db: Db, steps: seq<Step>, d: Db, who: Identity, m: ClientMessage, t: Times,
                      uuid: nat -> Id)
    requires Initial(db) && d == Run(san, db, steps) && m.body.Hello?
    requires var o := AcceptMessage(san, d, who, m, t, uuid); o.Committed? && !o.reply.duplicate
    ensures var o := AcceptMessage(san, d, who, m, t, uuid);
            && who.connector in d.connectors && who.connector in o.db.connectors
            && var c, c' := d.connectors[who.connector], o.db.connectors[who.connector];
               && HandsOut(c, c', d.book.jobs, m.body.lastServer, t.now, o.reply.replay)
               && (forall s :: s in c.server ==>
                     s in c'.server && c'.server[s].acknowledged
                       == (c.server[s].acknowledged || s <= m.body.lastServer))
  {
    Delivery.InitialOk(db);
    Delivery.ConnectorsRun(san, db, steps);
    hide Run, HandsOut, AcceptNew, AcceptDuplicate;
    var c := d.connectors[who.connector];
    assert ConnectorOk(who.connector, c);
    if m.id in c.client {
      DuplicateSaysSo(d, who.connector, c, m, c.client[m.id], t, uuid);
    } else {
      NewHelloHandsOut(san, d, who, c, m, t, uuid);
    }
  }

  lemma DuplicateSaysSo(db: Db, cid: Id, c: Connector, m: ClientMessage, row: ClientRow, t: Times, uuid: nat -> Id)
    ensures var o := AcceptDuplicate(db, cid, c, m, row, t, uuid); o.Committed? ==> o.reply.duplicate
  {
    hide FindOriginal, RefreshIfNeeded, IsExactDuplicate;
  }

  lemma NewHelloHandsOut(san: string -> string, db: Db, who: Identity, c: Connector, m: ClientMessage, t: Times,
                         uuid: nat -> Id)
    requires Dense(c) && m.body.Hello? && AcceptNew(san, db, who, c, m, t, uuid).Committed?
    ensures var o := AcceptNew(san, db, who, c, m, t, uuid);
            && who.connector in o.db.connectors
            && var c' := o.db.connectors[who.connector];
               && HandsOut(c, c', db.book.jobs, m.body.lastServer, t.now, o.reply.replay)
               && (forall s :: s in c.server ==>
                     s in c'.server && c'.server[s].acknowledged
                       == (c.server[s].acknowledged || s <= m.body.lastServer))
  {
    hide AcceptNew, Admit, AdmissionReply, SettledFor, HandsOut, Batch, Receipt, Greeted, Durable, Coordination;
    CommittedShape(san, db, who, c, m, t, uuid);
    HelloAdmission(san, db, who, c, m, t, uuid);
    var after, d := m.body.lastServer, Greeted(c, db.book.jobs, m, t, uuid);
    GreetedRows(c, db.book.jobs, m, t, uuid);
    var r :=
      Reply(Some(Welcome(who.connector, d.lastServer + 1, after + 1, Durable(c, m.body), Coordination(c, m.body))),
                   false);
    ReceiptKeepsRows(d, m, Durable(c, m.body), Coordination(c, m.body), r, t, uuid);
    HandsOutSameRows(c, c, d, Receipt(d, m, Durable(c, m.body), Coordination(c, m.body), r, t, uuid), db.book.jobs,
                     after,
                     t.now, Batch(d.server, after, d.lastServer, REPLAY_BATCH));
  }

  /** The connector after a hello: its cursor and capabilities, its marks, its tombstones. */
  function Greeted(c: Connector, jobs: map<Id, Job>, m: ClientMessage, t: Times, uuid: nat -> Id): Connector
    requires m.body.Hello?
  {
    TombstoneBatch(AcknowledgeUpTo(c.(lastClient := m.sequence, durable := Durable(c, m.body),
                                      coordination := Coordination(c, m.body)), m.body.lastServer),
                   jobs, m.body.lastServer, t.now, uuid)
  }

  lemma HelloAdmission(san: string -> string, db: Db, who: Identity, c: Connector, m: ClientMessage, t: Times,
                       uuid: nat -> Id)
    requires m.body.Hello?
    ensures var s, d := SettledFor(san, db, who, c, m, t, uuid), Greeted(c, db.book.jobs, m, t, uuid);
            var durable, coordination := Durable(c, m.body), Coordination(c, m.body);
            && s == Effect(db.book, c, false)
            && var a := Admit(who.connector, c, db.book, m, durable, coordination, s, t, uuid);
               && a == Admission(db.book, d,
                    Reply(Some(Welcome(who.connector, d.lastServer + 1, m.body.lastServer + 1, durable, coordination)),
                          false))
               && AdmissionReply(a, m).replay == Batch(d.server, m.body.lastServer, d.lastServer, REPLAY_BATCH)
  {
    hide TombstoneBatch, AcknowledgeUpTo, Batch;
  }

  lemma GreetedRows(c: Connector, jobs: map<Id, Job>, m: ClientMessage, t: Times, uuid: nat -> Id)
    requires Dense(c) && m.body.Hello?
    ensures var d := Greeted(c, jobs, m, t, uuid);
            && d.lastServer == c.lastServer && d.server.Keys == c.server.Keys
            && HandsOut(c, d, jobs, m.body.lastServer, t.now,
                        Batch(d.server, m.body.lastServer, d.lastServer, REPLAY_BATCH))
            && (forall s :: s in c.server ==>
                  s <= d.lastServer && d.server[s].acknowledged == (c.server[s].acknowledged || s <= m.body.lastServer))
  {
    hide TombstoneBatch, Batch, HandsOut, AcknowledgeUpTo, Stale;
    var after := m.body.lastServer;
    var c1 := c.(lastClient := m.sequence, durable := Durable(c, m.body), coordination := Coordination(c, m.body));
    MarkedRows(c1, after);
    var a := AcknowledgeUpTo(c1, after);
    BatchHandsOut(a, jobs, after, t.now, uuid);
    TombstonedKeys(a, jobs, after, t.now, uuid);
    var d := TombstoneBatch(a, jobs, after, t.now, uuid);
    forall s | s in a.server ensures d.server[s].acknowledged == a.server[s].acknowledged {
      StaleRowsBuried(a, jobs, after, t.now, uuid, s);
      BuriedKeepsMark(a.server[s], d.server[s], jobs, t.now);
    }
    HandsOutSameRows(a, c, d, d, jobs, after, t.now, Batch(d.server, after, d.lastServer, REPLAY_BATCH));
  }

  lemma BuriedKeepsMark(r: ServerRow, r': ServerRow, jobs: map<Id, Job>, now: int)
    ensures r' == r || Buried(r, r', jobs, now) ==> r'.acknowledged == r.acknowledged
  {}

  lemma TombstonedKeys(c: Connector, jobs: map<Id, Job>, after: nat, now: int, uuid: nat -> Id)
    ensures var c' := TombstoneBatch(c, jobs, after, now, uuid);
            c'.server.Keys == c.server.Keys && c'.lastServer == c.lastServer
  {}

  lemma ReceiptKeepsRows(c: Connector, m: ClientMessage, durable: bool, coordination: bool, r: Reply, t: Times,
                         uuid: nat -> Id)
    requires forall s :: s in c.server ==> s <= c.lastServer
    ensures var e := Receipt(c, m, durable, coordination, r, t, uuid);
            forall s :: s in c.server ==> s in e.server && e.server[s] == c.server[s]
  {}

  // ----- replay -----

  /** A replayed row: as it was if it still holds the response and lives, and else
      written back for another minute under the sequence and correlation it had. */
  predicate Restored(r: ServerRow, r': ServerRow, body: ServerBody, t: Times) {
    if r.expiresAt > t.now && r.body == body then r' == r
    else r' == r.(messageId := r'.messageId, body := body, expiresAt := t.after + 60_000, createdAt := t.after)
  }

  lemma RefreshRestores(c: Connector, sequence: nat, body: ServerBody, t: Times, uuid: nat -> Id)
    requires sequence in c.server
    ensures var c' := RefreshIfNeeded(c, Found(sequence, body), t, uuid);
            && sequence in c'.server && Restored(c.server[sequence], c'.server[sequence], body, t)
            && c' == c.(server := c.server[sequence := c'.server[sequence]])
  {}

  /** Redelivering a known message at any moment of any run writes back the rows of
      its answer, and touches no other row. */
  lemma ReplayRestores(san: string -> string, db: Db, steps: seq<Step>, d: Db, who: Identity, m: ClientMessage,
                       t: Times,
                       uuid: nat -> Id, s: nat)
    requires Initial(db) && d == Run(san, db, steps) && who.connector in d.connectors
    requires m.id in d.connectors[who.connector].client && AcceptMessage(san, d, who, m, t, uuid).Committed?
    requires s in d.connectors[who.connector].server
    ensures var c, row := d.connectors[who.connector], d.connectors[who.connector].client[m.id];
            var o := AcceptMessage(san, d, who, m, t, uuid);
            && who.connector in o.db.connectors && s in o.db.connectors[who.connector].server
            && var r, r' := c.server[s], o.db.connectors[who.connector].server[s];
               if row.response.Some? && row.response.value.sequence == s then
                 Restored(r, r', row.response.value.body, t)
               else if row.receiptAck.Some? && row.receiptAck.value.sequence == s then
                 Restored(r, r', row.receiptAck.value.body, t)
               else r' == r
  {
    Delivery.InitialOk(db);
    Delivery.ConnectorsRun(san, db, steps);
    hide Run, AcceptDuplicate, AcceptNew, Restored;
    var c := d.connectors[who.connector];
    assert ConnectorOk(who.connector, c);
    ReplayedRows(d, who.connector, c, m, t, uuid, s);
  }

  lemma ReplayedRows(db: Db, cid: Id, c: Connector, m: ClientMessage, t: Times, uuid: nat -> Id, s: nat)
    requires ConnectorOk(cid, c) && m.id in c.client && s in c.server
    requires AcceptDuplicate(db, cid, c, m, c.client[m.id], t, uuid).Committed?
    ensures var o, row := AcceptDuplicate(db, cid, c, m, c.client[m.id], t, uuid), c.client[m.id];
            && cid in o.db.connectors && s in o.db.connectors[cid].server
            && var r, r' := c.server[s], o.db.connectors[cid].server[s];
               if row.response.Some? && row.response.value.sequence == s then
                 Restored(r, r', row.response.value.body, t)
               else if row.receiptAck.Some? && row.receiptAck.value.sequence == s then
                 Restored(r, r', row.receiptAck.value.body, t)
               else r' == r
  {
    var row := c.client[m.id];
    assert ReceiptOk(cid, c.server, row) && row.message.id == m.id;
    hide FindOriginal, RefreshIfNeeded, ConnectorOk, Restored;
    Replay.OriginalFound(cid, c, row, m);
    if row.response.Some? {
      var st := row.response.value;
      RefreshRestores(c, st.sequence, st.body, t, uuid);
      var c1 := RefreshIfNeeded(c, Found(st.sequence, st.body), t, uuid);
      if row.receiptAck.Some? {
        RestoredStays(cid, c, c1, m.id, st, t, uuid);
        Replay.OriginalFound(cid, c1, row, m);
        RefreshRestores(c1, row.receiptAck.value.sequence, row.receiptAck.value.body, t, uuid);
      }
    }
  }

  lemma RestoredStays(cid: Id, c: Connector, c1: Connector, id: Id, st: StoredResponse, t: Times, uuid: nat -> Id)
    requires ConnectorOk(cid, c) && id in c.client && c.client[id].response == Some(st) && st.sequence in c.server
    requires c1 == RefreshIfNeeded(c, Found(st.sequence, st.body), t, uuid)
    ensures ReceiptOk(cid, c1.server, c.client[id])
  {
    Replay.RefreshKeeps(cid, c, id, st, t, uuid);
    assert ConnectorOk(cid, c1) && c1.client == c.client;
  }

  // ----- the scan -----

  /** Sending a batch in order: each row is started, found ready and written. */
  function ScanSteps(batch: seq<Delivered>, generation: nat): seq<Sender.Step> {
    if batch == [] then []
    else ScanSteps(batch[..|batch| - 1], generation)
         + [Sender.Start(batch[|batch| - 1].sequence, false, generation), Sender.Materialized(true),
            Sender.Written(true)]
  }

  function Frames(batch: seq<Delivered>): seq<Sender.Sent> {
    seq(|batch|, i requires 0 <= i < |batch| => Sender.Sent(batch[i].sequence, false))
  }

  predicate Live(c: Sender.Connection) {
    c.accepting && c.current && c.initialized && c.flight.None?
  }

  lemma ThreeSteps(c: Sender.Connection, sequence: nat)
    requires Live(c) && sequence == c.scan + 1 <= c.rows
    ensures var d := Sender.Next(Sender.Next(Sender.Next(c, Sender.Start(sequence, false, c.generation)),
                                             Sender.Materialized(true)), Sender.Written(true));
            d == c.(scan := sequence, wire := c.wire + [Sender.Sent(sequence, false)])
  {}

  lemma RunThree(c: Sender.Connection, steps: seq<Sender.Step>, x: Sender.Step, y: Sender.Step, z: Sender.Step)
    ensures Sender.Run(c, steps + [x, y, z]) == Sender.Next(Sender.Next(Sender.Next(Sender.Run(c, steps), x), y), z)
  {
    RunOneMore(c, steps, x);
    RunOneMore(c, steps + [x], y);
    RunOneMore(c, steps + [x] + [y], z);
    hide Sender.Next, Sender.Run;
    assert steps + [x, y, z] == steps + [x] + [y] + [z];
  }

  lemma RunOneMore(c: Sender.Connection, steps: seq<Sender.Step>, x: Sender.Step)
    ensures Sender.Run(c, steps + [x]) == Sender.Next(Sender.Run(c, steps), x)
  {
    hide Sender.Next;
    assert (steps + [x])[..|steps|] == steps;
  }

  /** On a live connection, the rows handed out after the scan's cursor go on the
      wire one by one, each once, and the scan ends on the last of them. */
  lemma {:induction false} ScanSendsTheBatch(c: Sender.Connection, batch: seq<Delivered>)
    requires Live(c) && c.scan + |batch| <= c.rows
    requires forall i :: 0 <= i < |batch| ==> batch[i].sequence == c.scan + 1 + i
    ensures Sender.Run(c, ScanSteps(batch, c.generation))
         == c.(scan := c.scan + |batch|, wire := c.wire + Frames(batch))
    decreases |batch|
  {
    if batch == [] {
      assert c.wire + Frames([]) == c.wire;
    } else {
      var init, last := batch[..|batch| - 1], batch[|batch| - 1];
      ScanSendsTheBatch(c, init);
      RunThree(c, ScanSteps(init, c.generation), Sender.Start(last.sequence, false, c.generation),
               Sender.Materialized(true), Sender.Written(true));
      var mid := Sender.Run(c, ScanSteps(init, c.generation));
      ThreeSteps(mid, last.sequence);
      assert Frames(batch) == Frames(init) + [Sender.Sent(last.sequence, false)];
      assert c.wire + Frames(init) + [Sender.Sent(last.sequence, false)] == c.wire + Frames(batch);
    }
  }

  /** So a live connection that asks at any moment of any run of the control plane
      for what follows its cursor, and sends it, sends exactly the next stored rows. */
  lemma ScanSendsStoredRows(san: string -> string, db: Db, steps: seq<Step>, d: Db, who: Identity, c: Sender.Connection,
                            t: Times, uuid: nat -> Id)
    requires Initial(db) && d == Run(san, db, steps) && PendingMessages(d, who, c.scan, t, uuid).Committed?
    requires Live(c) && who.connector in d.connectors && c.scan <= c.rows == d.connectors[who.connector].lastServer
    ensures var batch := PendingMessages(d, who, c.scan, t, uuid).reply;
            Sender.Run(c, ScanSteps(batch, c.generation))
            == c.(scan := c.scan + |batch|, wire := c.wire + Frames(batch))
    ensures c.scan < c.rows ==> PendingMessages(d, who, c.scan, t, uuid).reply != []
  {
    PendingHandsOut(san, db, steps, who, c.scan, t, uuid);
    hide Run, PendingMessages;
    var batch := PendingMessages(d, who, c.scan, t, uuid).reply;
    BatchNumbered(d.connectors[who.connector], PendingMessages(d, who, c.scan, t, uuid).db.connectors[who.connector],
                  d.book.jobs, c.scan, t.now, batch);
    hide HandsOut;
    ScanSendsTheBatch(c, batch);
  }

  lemma BatchNumbered(c: Connector, c': Connector, jobs: map<Id, Job>, after: nat, now: int, batch: seq<Delivered>)
    requires HandsOut(c, c', jobs, after, now, batch)
    ensures forall i :: 0 <= i < |batch| ==> batch[i].sequence == after + 1 + i
    ensures batch != [] ==> after + |batch| <= c.lastServer
    ensures after < c.lastServer ==> batch != []
  {
    forall i | 0 <= i < |batch| ensures batch[i].sequence == after + 1 + i {
      assert batch[(after + 1 + i) - after - 1] == Delivered(after + 1 + i, c'.server[after + 1 + i].body);
    }
  }

  /** A failing connection stores its protocol error at the next row, and sends it last
      exactly if everything before it has been sent; nothing goes out after it. */
  lemma FailureIsSentLast(c: Sender.Connection)
    requires Live(c) && c.scan <= c.rows
    ensures var f := Sender.Next(c, Sender.Fail);
            var s := Sender.Next(f, Sender.ErrorStored(true));
            var r := Sender.Next(s, Sender.ErrorReady(true));
            && !f.accepting && s.rows == c.rows + 1
            && r.wire == (if c.scan == c.rows then c.wire + [Sender.Sent(c.rows + 1, false)] else c.wire)
            && (forall sequence, retransmit, generation ::
                  Sender.Next(r, Sender.Start(sequence, retransmit, generation)).flight.None?)
  {}

  /** A new connection opens with the first hello that reports no more than is stored:
      it is live from then on, its scan standing on the cursor of the hello. */
  lemma HelloOpens(rows: nat, cursor: nat, again: nat)
    requires cursor <= rows
    ensures var c := Sender.Next(Sender.Opened(rows), Sender.Hello(cursor));
            && Live(c) && c.cursor == cursor == c.scan && c.rows == rows && c.wire == []
            && Sender.Next(c, Sender.Hello(again)) == c
  {}

  /** A retransmission goes out at once, whatever its sequence, and leaves the scan. */
  lemma RetransmissionGoesOut(c: Sender.Connection, sequence: nat)
    requires Live(c) && 1 <= sequence <= c.rows
    ensures var d := Sender.Next(Sender.Next(Sender.Next(c, Sender.Start(sequence, true, c.generation)),
                                             Sender.Materialized(true)), Sender.Written(true));
            d == c.(wire := c.wire + [Sender.Sent(sequence, true)])
  {}

  /** A connection that was replaced, stopped or has failed sends no stored row again
      and its scan stands still; all that can still go out is its own protocol error,
      unless the connection was stopped or replaced after it failed. */
  lemma NothingAfterTheEnd(c: Sender.Connection, step: Sender.Step)
    requires !c.accepting || !c.current
    ensures var d := Sender.Next(c, step);
            && (!d.accepting || !d.current) && d.scan == c.scan
            && (|| d.wire == c.wire
                || (&& step == Sender.ErrorReady(true) && c.failure == Sender.Sending(c.failure.sequence, c.generation)
                    && c.current && d.wire == c.wire + [Sender.Sent(c.failure.sequence, false)]))
  {}
}
