/** Durable messages over whole runs: exactly-once effects with stable replay,
    gap-free server sequences, and receipt accounting. */
module Delivery {
  import opened Common
  import opened JobState
  import opened ServerTypes
  import opened OutboxRows
  import opened Business
  import opened Accept
  import opened Dispatch
  import opened Repository
  import opened Moves
  import opened ServerRuns
  import opened JobTheorems
  import opened Receipts
  import opened Replay

  ghost predicate ConnectorsOk(db: Db) {
    forall c :: c in db.connectors ==> ConnectorOk(c, db.connectors[c])
  }

  /** Cursors never go back and a receipt is never altered or lost. */
  ghost predicate ConnectorEvolves(c: Connector, c': Connector) {
    && c'.owner == c.owner && c.lastServer <= c'.lastServer && c.lastClient <= c'.lastClient
    && forall k :: k in c.client ==> k in c'.client && c'.client[k] == c.client[k]
  }

  ghost predicate ConnectorsEvolve(db: Db, db': Db) {
    && db'.connectors.Keys == db.connectors.Keys
    && forall c :: c in db.connectors ==> ConnectorEvolves(db.connectors[c], db'.connectors[c])
  }

  /** Exactly one connector may have changed, and it still satisfies its invariant. */
  ghost predicate OneChanged(db: Db, db': Db, cid: Id) {
    && cid in db.connectors && cid in db'.connectors
    && db'.connectors == db.connectors[cid := db'.connectors[cid]]
    && ConnectorOk(cid, db'.connectors[cid]) && ConnectorEvolves(db.connectors[cid], db'.connectors[cid])
  }

  lemma OneChangedKeeps(db: Db, db': Db, cid: Id)
    requires ConnectorsOk(db) && OneChanged(db, db', cid)
    ensures ConnectorsOk(db') && ConnectorsEvolve(db, db')
  {
    hide ConnectorOk;
  }

  lemma EnqueueKeeps(cid: Id, c: Connector, body: ServerBody, correlation: Id, expiresAt: int, now: int,
                     uuid: nat -> Id)
    requires ConnectorOk(cid, c) && c.lastServer < MAX_SAFE
    ensures ConnectorOk(cid, Enqueue(c, body, correlation, expiresAt, now, uuid))
    ensures ConnectorEvolves(c, Enqueue(c, body, correlation, expiresAt, now, uuid))
  {
    EnqueueChange(c, body, correlation, expiresAt, now, uuid);
    RowChangeKeeps(cid, c, Enqueue(c, body, correlation, expiresAt, now, uuid));
  }

  lemma TombstoneKeeps(cid: Id, c: Connector, jobs: map<Id, Job>, after: nat, now: int, uuid: nat -> Id)
    requires ConnectorOk(cid, c)
    ensures ConnectorOk(cid, TombstoneBatch(c, jobs, after, now, uuid))
    ensures ConnectorEvolves(c, TombstoneBatch(c, jobs, after, now, uuid))
  {
    TombstoneChange(c, jobs, after, now, uuid);
    RowChangeKeeps(cid, c, TombstoneBatch(c, jobs, after, now, uuid));
  }

  // ----- every step -----

  lemma AcceptKeeps(san: string -> string, db: Db, who: Identity, m: ClientMessage, t: Times, uuid: nat -> Id)
    requires ConnectorsOk(db)
    ensures var o := AcceptMessage(san, db, who, m, t, uuid);
            o.Committed? ==> OneChanged(db, o.db, who.connector)
  {
    var o := AcceptMessage(san, db, who, m, t, uuid);
    if o.Committed? {
      var c := db.connectors[who.connector];
      if m.id in c.client {
        DuplicateReplays(db, who.connector, m, t, uuid);
      } else {
        AcceptNewKeeps(san, db, who, c, m, t, uuid);
        AcceptNewEvolves(san, db, who, c, m, t, uuid);
      }
    }
  }

  lemma AcceptNewEvolves(san: string -> string, db: Db, who: Identity, c: Connector, m: ClientMessage, t: Times,
                         uuid: nat -> Id)
    requires ConnectorOk(who.connector, c) && m.id !in c.client
    ensures var o := AcceptNew(san, db, who, c, m, t, uuid);
            o.Committed? ==> who.connector in o.db.connectors && ConnectorEvolves(c, o.db.connectors[who.connector])
  {
    var o := AcceptNew(san, db, who, c, m, t, uuid);
    if o.Committed? {
      var durable, coordination := Durable(c, m.body), Coordination(c, m.body);
      MessageVerdictOk(san, db.book, c, who, m, t, durable, coordination, uuid);
      AdmitEvolves(who.connector, c, db.book, m, durable, coordination,
                   MessageVerdict(san, db.book, c, who, m, t, durable, coordination, uuid), t, uuid);
    }
  }

  lemma AdmitEvolves(cid: Id, c: Connector, book: Book, m: ClientMessage, durable: bool, coordination: bool, v: Verdict,
                     t: Times, uuid: nat -> Id)
    requires Dense(c) && m.id !in c.client && m.sequence == c.lastClient + 1
    requires VerdictOk(c, book, m, coordination, v) && !Settle(v, durable, coordination).Throw?
    ensures var a := Admit(cid, c, book, m, durable, coordination, Settle(v, durable, coordination), t, uuid);
            && ConnectorEvolves(c, Receipt(a.connector, m, durable, coordination, a.reply, t, uuid))
            && a.connector.lastServer == c.lastServer && a.connector.lastClient == m.sequence
  {
    hide Advance, RowsKept, NoNewCommand, ReplyTo, Enqueue;
    var s := Settle(v, durable, coordination);
    AdvanceChange(if s.Effect? then s.connector else c, if s.Effect? then s.book.jobs else book.jobs, m, durable,
                  coordination, t, uuid);
    var a := Admit(cid, c, book, m, durable, coordination, s, t, uuid);
    ReceiptEvolves(a.connector, m, durable, coordination, a.reply, t, uuid);
  }

  lemma ReceiptEvolves(c: Connector, m: ClientMessage, durable: bool, coordination: bool, r: Reply, t: Times,
                       uuid: nat -> Id)
    requires m.id !in c.client
    ensures ConnectorEvolves(c, Receipt(c, m, durable, coordination, r, t, uuid))
  {}

  lemma CommandKeeps(db: Db, book: Book, cid: Id, body: ServerBody, expiresAt: int, t: Times, correlation: Id,
                     uuid: nat -> Id)
    requires ConnectorsOk(db) && cid in db.connectors && db.connectors[cid].lastServer < MAX_SAFE
    ensures OneChanged(db, Command(db, book, cid, body, expiresAt, t, correlation, uuid), cid)
  {
    EnqueueKeeps(cid, db.connectors[cid], body, correlation, expiresAt, t.now, uuid);
  }

  /** The connector whose rows a step may touch. */
  function Touched(db: Db, s: Step): Option<Id> {
    match s
    case CreateStep(_, _, _, _, _, _) => None
    case ClaimOfferStep(_, _, _, _, _) => None
    case CancelStep(_, job, _, _, _, _, _) => if job in db.book.jobs then db.book.jobs[job].connector else None
    case DecideStep(i, _, _, _) =>
      if i.approval in db.book.approvals && db.book.approvals[i.approval].job in db.book.jobs
      then db.book.jobs[db.book.approvals[i.approval].job].connector else None
    case _ => Some(s.who.connector)
  }

  lemma ConnectorsStep(san: string -> string, db: Db, s: Step)
    requires ConnectorsOk(db)
    ensures var db' := Apply(san, db, s);
            db'.connectors == db.connectors || (Touched(db, s).Some? && OneChanged(db, db', Touched(db, s).value))
  {
    hide ConnectorOk, ConnectorEvolves, AcceptMessage, DispatchNext, CancelAtomically, RecordDecision;
    match s
    case AcceptStep(who, m, t, uuid) => AcceptKeeps(san, db, who, m, t, uuid);
    case DispatchStep(who, choice, t, lease, correlation, uuid) =>
      DispatchKeeps(db, who, choice, t, lease, correlation, uuid);
    case PendingStep(who, after, t, uuid) =>
      if who.connector in db.connectors {
        TombstoneKeeps(who.connector, db.connectors[who.connector], db.book.jobs, after, t.now, uuid);
      }
    case FailureStep(who, detail, t, correlation, uuid) => FailureKeeps(db, who, detail, t, correlation, uuid);
    case CreateStep(key, digest, repository, mode, newId, t) =>
    case CancelStep(owner, job, expected, t, nonce, correlation, uuid) =>
      CancelKeeps(db, owner, job, expected, t, nonce, correlation, uuid);
    case ClaimOfferStep(job, connector, attempt, lease, t) =>
    case DecideStep(input, t, correlation, uuid) => DecideKeeps(db, input, t, correlation, uuid);
  }

  lemma DispatchKeeps(db: Db, who: Identity, choice: Id, t: Times, lease: Id, correlation: Id, uuid: nat -> Id)
    requires ConnectorsOk(db)
    ensures var db' := Result(db, DispatchNext(db, who, choice, t, lease, correlation, uuid));
            db'.connectors == db.connectors || OneChanged(db, db', who.connector)
  {
    hide ConnectorOk, ConnectorEvolves;
    var o := DispatchNext(db, who, choice, t, lease, correlation, uuid);
    if o.Committed? && o.reply.Some? {
      var job := db.book.jobs[choice];
      EnqueueKeeps(who.connector, db.connectors[who.connector], o.reply.value.body, correlation,
                   Min(t.write + LEASE_MS, job.expiresAt), t.now, uuid);
    }
  }

  lemma FailureKeeps(db: Db, who: Identity, detail: Id, t: Times, correlation: Id, uuid: nat -> Id)
    requires ConnectorsOk(db)
    ensures var db' := Result(db, ReportFailure(db, who, detail, t, correlation, uuid));
            db'.connectors == db.connectors || OneChanged(db, db', who.connector)
  {
    hide ConnectorOk, ConnectorEvolves;
    var o := ReportFailure(db, who, detail, t, correlation, uuid);
    if o.Committed? {
      EnqueueKeeps(who.connector, db.connectors[who.connector], o.reply.body, correlation, t.after + MESSAGE_TTL_MS,
                   t.now, uuid);
    }
  }

  lemma CancelKeeps(db: Db, owner: Id, id: Id, expected: nat, t: Times, nonce: Id, correlation: Id, uuid: nat -> Id)
    requires ConnectorsOk(db)
    ensures var db' := Result(db, CancelAtomically(db, owner, id, expected, t, nonce, correlation, uuid));
            || db'.connectors == db.connectors
            || (id in db.book.jobs && db.book.jobs[id].connector.Some?
                && OneChanged(db, db', db.book.jobs[id].connector.value))
  {
    hide ConnectorOk, ConnectorEvolves, WriteJob;
    var o := CancelAtomically(db, owner, id, expected, t, nonce, correlation, uuid);
    if o.Committed? && (db.book.jobs[id].status.Running? || db.book.jobs[id].status.WaitingApproval?) {
      var job := db.book.jobs[id];
      var n := job.(status := Cancelling, revision := job.revision + 1, cancelRevision := Some(job.revision + 1));
      CommandKeeps(db, WriteJob(db.book, id, n, CancelEvent(n.revision)), job.connector.value,
                   CancelCommand(id, job.attempt, n.revision, nonce), job.expiresAt, t, correlation, uuid);
    }
  }

  lemma DecideKeeps(db: Db, i: DecideInput, t: Times, correlation: Id, uuid: nat -> Id)
    requires ConnectorsOk(db)
    ensures var db' := Result(db, RecordDecision(db, i, t, correlation, uuid));
            || db'.connectors == db.connectors
            || (i.approval in db.book.approvals && db.book.approvals[i.approval].job in db.book.jobs
                && var k := db.book.jobs[db.book.approvals[i.approval].job].connector;
                   k.Some? && OneChanged(db, db', k.value))
  {
    hide ConnectorOk, ConnectorEvolves;
    var o := RecordDecision(db, i, t, correlation, uuid);
    if o.Committed? && i.owner.Some? && db.book.approvals[i.approval].decision.None? {
      var a := db.book.approvals[i.approval];
      var job := db.book.jobs[a.job];
      var d := o.reply.decision;
      CommandKeeps(db, AppendEvent(Record(db.book, i.approval, d), a.job, ApprovalDecidedEvent(i.approval, d)),
                   job.connector.value,
                   DecisionCommand(i.approval, a.job, a.attempt, a.revision, a.fingerprint, d),
                   Min(job.expiresAt, t.after + MESSAGE_TTL_MS), t, correlation, uuid);
    }
  }

  lemma ConnectorsKept(san: string -> string, db: Db, s: Step)
    requires ConnectorsOk(db)
    ensures ConnectorsOk(Apply(san, db, s)) && ConnectorsEvolve(db, Apply(san, db, s))
  {
    ConnectorsStep(san, db, s);
    var db' := Apply(san, db, s);
    if db'.connectors != db.connectors { OneChangedKeeps(db, db', Touched(db, s).value); }
  }

  lemma {:induction false} ConnectorsRun(san: string -> string, db: Db, steps: seq<Step>)
    requires ConnectorsOk(db)
    ensures ConnectorsOk(Run(san, db, steps))
  {
    if steps != [] {
      ConnectorsRun(san, db, steps[..|steps| - 1]);
      ConnectorsKept(san, Run(san, db, steps[..|steps| - 1]), steps[|steps| - 1]);
    }
  }

  lemma InitialOk(db: Db)
    requires Initial(db)
    ensures ConnectorsOk(db) && BookOk(db.book)
  {}

  lemma {:induction false} ReceiptsOnlyGrow(san: string -> string, db: Db, steps: seq<Step>, i: nat, j: nat)
    requires ConnectorsOk(db) && i <= j <= |steps|
    ensures ConnectorsEvolve(At(san, db, steps, i), At(san, db, steps, j))
    decreases j - i
  {
    hide Run, Apply, ConnectorOk, ConnectorEvolves;
    EvolveReflexive(At(san, db, steps, i));
    if i < j {
      ReceiptsOnlyGrow(san, db, steps, i, j - 1);
      ConnectorsRun(san, db, steps[..j - 1]);
      RunPrefix(san, db, steps, j - 1);
      ConnectorsKept(san, At(san, db, steps, j - 1), steps[j - 1]);
      EvolveTransitive(At(san, db, steps, i), At(san, db, steps, j - 1), At(san, db, steps, j));
    }
  }

  lemma EvolveReflexive(a: Db)
    ensures ConnectorsEvolve(a, a)
  {}

  lemma EvolveTransitive(a: Db, b: Db, c: Db)
    requires ConnectorsEvolve(a, b) && ConnectorsEvolve(b, c)
    ensures ConnectorsEvolve(a, c)
  {
    forall k | k in a.connectors ensures ConnectorEvolves(a.connectors[k], c.connectors[k]) {
      assert ConnectorEvolves(a.connectors[k], b.connectors[k]) && ConnectorEvolves(b.connectors[k], c.connectors[k]);
    }
  }

  // ----- the theorems -----

  /** Ordered durable delivery: in every run the server rows of a connector are
      exactly the sequences 1..lastServer, under every enqueuer and all
      tombstoning, and its client rows are numbered 1..lastClient. */
  lemma ServerRowsAreGapFree(san: string -> string, db: Db, steps: seq<Step>, cid: Id)
    requires Initial(db) && cid in Run(san, db, steps).connectors
    ensures Dense(Run(san, db, steps).connectors[cid])
    ensures Numbered(Run(san, db, steps).connectors[cid].client, Run(san, db, steps).connectors[cid].lastClient)
  {
    InitialOk(db);
    ConnectorsRun(san, db, steps);
  }

  /** On no reachable state does replaying a receipt fail internally: a message
      whose id is known is either answered from its receipt or refused as a
      mismatch. */
  lemma ReplayNeverBreaks(san: string -> string, db: Db, steps: seq<Step>, who: Identity, m: ClientMessage, t: Times,
                          uuid: nat -> Id)
    requires Initial(db)
    requires var d := Run(san, db, steps); who.connector in d.connectors && m.id in d.connectors[who.connector].client
    ensures AcceptMessage(san, Run(san, db, steps), who, m, t, uuid) != Aborted(Internal)
  {
    hide Run, FindOriginal, RefreshIfNeeded;
    InitialOk(db);
    ConnectorsRun(san, db, steps);
    var d := Run(san, db, steps);
    assert ConnectorOk(who.connector, d.connectors[who.connector]);
    hide ConnectorOk;
    var row := d.connectors[who.connector].client[m.id];
    if IsExactDuplicate(row, m)
      && (if row.durable then m.expiresAt <= t.now + MESSAGE_TTL_MS else m.expiresAt > t.now) {
      DuplicateReplays(d, who.connector, m, t, uuid);
    }
  }

  /** The answer to a sync passes its own schema if the job is well formed and
      the request asks for an attempt the protocol allows. */
  lemma StateParses(id: Id, job: Job, m: ClientMessage, observed: int)
    requires m.body.Sync? && JobOk(job) && 1 <= m.sequence <= MAX_SAFE
    ensures PayloadParses(StateBody(id, job, m, observed)) <==> 1 <= m.body.syncAttempt <= MAX_INT32
  {}

  /** In no run does the answer to a job.sync fail the schema it is parsed with,
      unless the requested attempt is one the schema of job.sync itself refuses. */
  lemma SyncAnswersParse(san: string -> string, db: Db, steps: seq<Step>, who: Identity, m: ClientMessage, t: Times,
                         uuid: nat -> Id)
    requires Initial(db) && ValidRun(san, db, steps)
    ensures AcceptMessage(san, Run(san, db, steps), who, m, t, uuid) == Aborted(SchemaRejected)
        ==> m.body.Sync? && !(1 <= m.body.syncAttempt <= MAX_INT32)
  {
    BookOkRun(san, db, steps);
    var d := Run(san, db, steps);
    hide Run, AcceptMessage;
    if AcceptMessage(san, d, who, m, t, uuid) == Aborted(SchemaRejected) {
      AcceptUnparsed(san, d, who, m, t, uuid);
      assert JobOk(d.book.jobs[m.body.syncJob]);
      StateParses(m.body.syncJob, d.book.jobs[m.body.syncJob], m, t.after);
    }
  }

  /** Only a sync answered with the state of its job can end so. */
  lemma AcceptUnparsed(san: string -> string, db: Db, who: Identity, m: ClientMessage, t: Times, uuid: nat -> Id)
    requires AcceptMessage(san, db, who, m, t, uuid) == Aborted(SchemaRejected)
    ensures m.body.Sync? && 1 <= m.sequence <= MAX_SAFE && m.body.syncJob in db.book.jobs
    ensures !PayloadParses(StateBody(m.body.syncJob, db.book.jobs[m.body.syncJob], m, t.after))
  {
    hide PayloadParses, HasOriginalOffer, HasExpiredOffer, FindOriginal, ServerUses, Advance;
  }

  /** The message is newly accepted by this database, under durable receipts. */
  predicate NewlyAccepted(san: string -> string, db: Db, who: Identity, m: ClientMessage, t: Times, uuid: nat -> Id) {
    var o := AcceptMessage(san, db, who, m, t, uuid);
    o.Committed? && !o.reply.duplicate && Durable(db.connectors[who.connector], m.body)
  }

  function FirstReply(san: string -> string, db: Db, who: Identity, m: ClientMessage, t: Times,
                      uuid: nat -> Id): Acceptance
    requires NewlyAccepted(san, db, who, m, t, uuid)
  {
    AcceptMessage(san, db, who, m, t, uuid).reply
  }

  /** The database holds a durable receipt of `m` that replays `first`. */
  ghost predicate Remembers(db: Db, who: Identity, m: ClientMessage, first: Acceptance) {
    && who.connector in db.connectors && db.connectors[who.connector].owner == who.owner
    && m.id in db.connectors[who.connector].client
    && var row := db.connectors[who.connector].client[m.id];
       && row.durable && row.message == m
       && ReplayOf(row).response == first.response && (!m.body.Hello? ==> ReplayOf(row).replay == first.replay)
  }

  /** Redelivering `m` is a duplicate, answered as the first time (a hello is
      answered without repeating its replay batch), and nothing changes but
      outbox rows. */
  ghost predicate ReplaysFirst(san: string -> string, db: Db, who: Identity, m: ClientMessage, t: Times,
                               uuid: nat -> Id, first: Acceptance) {
    var o := AcceptMessage(san, db, who, m, t, uuid);
    && o.Committed? && o.reply.duplicate
    && o.reply.response == first.response && (!m.body.Hello? ==> o.reply.replay == first.replay)
    && o.db == db.(clock := t.after, connectors := o.db.connectors)
    && who.connector in db.connectors && who.connector in o.db.connectors
    && o.db.connectors
       == db.connectors[who.connector := db.connectors[who.connector].(server := o.db.connectors[who.connector].server)]
  }

  lemma ReplyIsStored(san: string -> string, db: Db, who: Identity, m: ClientMessage, t: Times, uuid: nat -> Id)
    requires ConnectorsOk(db) && NewlyAccepted(san, db, who, m, t, uuid)
    ensures Remembers(Result(db, AcceptMessage(san, db, who, m, t, uuid)), who, m, FirstReply(san, db, who, m, t, uuid))
  {
    var c := db.connectors[who.connector];
    if m.id !in c.client {
      assert ConnectorOk(who.connector, c);
      AcceptKeeps(san, db, who, m, t, uuid);
      hide ConnectorOk;
      NewReplyIsStored(san, db, who, c, m, t, uuid);
    }
  }

  lemma NewReplyIsStored(san: string -> string, db: Db, who: Identity, c: Connector, m: ClientMessage, t: Times,
                         uuid: nat -> Id)
    requires ConnectorOk(who.connector, c) && m.id !in c.client && AcceptNew(san, db, who, c, m, t, uuid).Committed?
    ensures var o := AcceptNew(san, db, who, c, m, t, uuid);
            && who.connector in o.db.connectors && m.id in o.db.connectors[who.connector].client
            && var row := o.db.connectors[who.connector].client[m.id];
               && row.message == m
               && ReplayOf(row).response == o.reply.response
               && (!m.body.Hello? ==> ReplayOf(row).replay == o.reply.replay)
               && row.durable == Durable(c, m.body)
  {
    var durable, coordination := Durable(c, m.body), Coordination(c, m.body);
    var v := MessageVerdict(san, db.book, c, who, m, t, durable, coordination, uuid);
    MessageVerdictOk(san, db.book, c, who, m, t, durable, coordination, uuid);
    var s := Settle(v, durable, coordination);
    var a := Admit(who.connector, c, db.book, m, durable, coordination, s, t, uuid);
    ReplyIsOk(who.connector, c, a.connector, db.book, m, durable, coordination, v, t);
    StoredReply(a, m, durable, coordination, t, uuid);
  }

  lemma StoredReply(a: Admission, m: ClientMessage, durable: bool, coordination: bool, t: Times, uuid: nat -> Id)
    requires a.reply.ack ==> a.reply.first.Some? && !m.body.Hello?
    ensures var row := Receipt(a.connector, m, durable, coordination, a.reply, t, uuid).client[m.id];
            && row.message == m && row.durable == durable
            && ReplayOf(row).response == AdmissionReply(a, m).response
            && (!m.body.Hello? ==> ReplayOf(row).replay == AdmissionReply(a, m).replay)
  {}

  /** Exactly-once effects with stable replay. Take any run, any message newly
      accepted in it under durable receipts, and any later moment: an exact
      redelivery (its transport expiry may have been renewed) is recognised as
      a duplicate, returns the very response and acknowledgement first given,
      and changes no job, approval, event, cursor or receipt. */
  lemma ExactlyOnce(san: string -> string, db: Db, steps: seq<Step>, i: nat, j: nat, again: ClientMessage, t: Times,
                    uuid: nat -> Id)
    requires Initial(db) && i < j <= |steps| && steps[i].AcceptStep?
    requires NewlyAccepted(san, At(san, db, steps, i), steps[i].who, steps[i].m, steps[i].t, steps[i].uuid)
    requires again == steps[i].m.(expiresAt := again.expiresAt) && again.expiresAt <= t.now + MESSAGE_TTL_MS
    ensures ReplaysFirst(san, At(san, db, steps, j), steps[i].who, again, t, uuid,
                         FirstReply(san, At(san, db, steps, i), steps[i].who, steps[i].m, steps[i].t, steps[i].uuid))
  {
    hide AcceptMessage, Run, Apply, ConnectorOk, NewlyAccepted, FirstReply, ReplaysFirst;
    var who, m := steps[i].who, steps[i].m;
    var first := FirstReply(san, At(san, db, steps, i), who, m, steps[i].t, steps[i].uuid);
    InitialOk(db);
    ConnectorsRun(san, db, steps[..i]);
    ReplyIsStored(san, At(san, db, steps, i), who, m, steps[i].t, steps[i].uuid);
    AcceptAt(san, db, steps, i);
    ReceiptsOnlyGrow(san, db, steps, i + 1, j);
    RemembersLater(At(san, db, steps, i + 1), At(san, db, steps, j), who, m, first);
    ConnectorsRun(san, db, steps[..j]);
    RedeliveryReplays(san, At(san, db, steps, j), who, m, again, t, uuid, first);
  }

  lemma RemembersLater(db: Db, db': Db, who: Identity, m: ClientMessage, first: Acceptance)
    requires Remembers(db, who, m, first) && ConnectorsEvolve(db, db')
    ensures Remembers(db', who, m, first)
  {
    assert ConnectorEvolves(db.connectors[who.connector], db'.connectors[who.connector]);
  }

  lemma AcceptAt(san: string -> string, db: Db, steps: seq<Step>, i: nat)
    requires i < |steps| && steps[i].AcceptStep?
    ensures At(san, db, steps, i + 1)
         == Result(At(san, db, steps, i),
                   AcceptMessage(san, At(san, db, steps, i), steps[i].who, steps[i].m, steps[i].t, steps[i].uuid))
  {
    hide AcceptMessage, Run;
    RunPrefix(san, db, steps, i);
  }

  lemma RedeliveryReplays(san: string -> string, db: Db, who: Identity, m: ClientMessage, again: ClientMessage,
                          t: Times, uuid: nat -> Id, first: Acceptance)
    requires ConnectorsOk(db) && Remembers(db, who, m, first)
    requires again == m.(expiresAt := again.expiresAt) && again.expiresAt <= t.now + MESSAGE_TTL_MS
    ensures ReplaysFirst(san, db, who, again, t, uuid, first)
  {
    DuplicateReplays(db, who.connector, again, t, uuid);
  }

  /** Receipt accounting: a newly accepted message moves the client cursor by
      exactly one, and the server cursor by none (a bare acknowledgement
      without durable receipts), one, or two (a durable rejection or a state
      answer followed at once by its acknowledgement). A message answered with
      an error leaves jobs, approvals and events untouched. */
  ghost predicate Accounted(db: Db, db': Db, who: Identity, m: ClientMessage, r: Acceptance)
    requires who.connector in db.connectors && who.connector in db'.connectors
  {
    var c, c' := db.connectors[who.connector], db'.connectors[who.connector];
    && c'.lastClient == c.lastClient + 1 == m.sequence
    && (if r.response.None? then
          c'.lastServer == c.lastServer && m.body.AckReport? && !Durable(c, m.body)
        else if m.body.Hello? || r.replay == [] then
          && c'.lastServer == c.lastServer + 1 == r.response.value.sequence
          && (r.response.value.body.ErrorBody? ==> db'.book == db.book)
        else
          && c'.lastServer == c.lastServer + 2
          && |r.replay| == 1 && r.replay[0].sequence == c.lastServer + 1
          && r.response == Some(Delivered(c.lastServer + 2, AckOf(m.sequence)))
          && Durable(c, m.body)
          && (r.replay[0].body.ErrorBody? || (m.body.Sync? && r.replay[0].body.State?))
          && (r.replay[0].body.ErrorBody? ==> db'.book == db.book))
  }

  lemma AccountingStep(san: string -> string, db: Db, who: Identity, m: ClientMessage, t: Times, uuid: nat -> Id)
    requires ConnectorsOk(db)
    requires var o := AcceptMessage(san, db, who, m, t, uuid); o.Committed? && !o.reply.duplicate
    ensures var o := AcceptMessage(san, db, who, m, t, uuid);
            who.connector in o.db.connectors && Accounted(db, o.db, who, m, o.reply)
  {
    hide AcceptNew, Accounted;
    var c := db.connectors[who.connector];
    if m.id !in c.client {
      assert ConnectorOk(who.connector, c);
      NewAccounted(san, db, who, m, t, uuid);
    }
  }

  /** Receipt accounting at every point of every run. */
  lemma ReceiptAccounting(san: string -> string, db: Db, steps: seq<Step>, who: Identity, m: ClientMessage, t: Times,
                          uuid: nat -> Id)
    requires Initial(db)
    requires var o := AcceptMessage(san, Run(san, db, steps), who, m, t, uuid); o.Committed? && !o.reply.duplicate
    ensures var d := Run(san, db, steps);
            var o := AcceptMessage(san, d, who, m, t, uuid);
            who.connector in d.connectors && who.connector in o.db.connectors && Accounted(d, o.db, who, m, o.reply)
  {
    hide Run, ConnectorOk, AcceptNew, AcceptDuplicate, Accounted;
    InitialOk(db);
    ConnectorsRun(san, db, steps);
    AccountingStep(san, Run(san, db, steps), who, m, t, uuid);
  }

  lemma NewAccounted(san: string -> string, db: Db, who: Identity, m: ClientMessage, t: Times, uuid: nat -> Id)
    requires who.connector in db.connectors && Dense(db.connectors[who.connector])
             && m.id !in db.connectors[who.connector].client
    requires AcceptNew(san, db, who, db.connectors[who.connector], m, t, uuid).Committed?
    ensures var o := AcceptNew(san, db, who, db.connectors[who.connector], m, t, uuid);
            who.connector in o.db.connectors && Accounted(db, o.db, who, m, o.reply)
  {
    hide AcceptNew, Admit, MessageVerdict, Receipt, AdmissionReply, ReplyTo, ConnectorEvolves;
    var c := db.connectors[who.connector];
    var durable, coordination := Durable(c, m.body), Coordination(c, m.body);
    NewShape(san, db, who, c, m, t, uuid);
    var v := MessageVerdict(san, db.book, c, who, m, t, durable, coordination, uuid);
    MessageVerdictOk(san, db.book, c, who, m, t, durable, coordination, uuid);
    var s := Settle(v, durable, coordination);
    var a := Admit(who.connector, c, db.book, m, durable, coordination, s, t, uuid);
    AdmitEvolves(who.connector, c, db.book, m, durable, coordination, v, t, uuid);
    AdmitShape(who.connector, c, db.book, m, durable, coordination, s, t, uuid);
    ReplyIsOk(who.connector, c, a.connector, db.book, m, durable, coordination, v, t);
    WithdrawnLeavesBook(san, db.book, c, who, m, t, durable, coordination, uuid);
    ErrorLeavesBook(who.connector, c, db.book, m, durable, coordination, v, t, uuid);
    hide VerdictOk, Settle, ReplyOk;
    Accounting(who.connector, a, c, m, durable, coordination, t, uuid);
  }

  /** What a commit of a new message consists of. */
  lemma NewShape(san: string -> string, db: Db, who: Identity, c: Connector, m: ClientMessage, t: Times,
                 uuid: nat -> Id)
    requires AcceptNew(san, db, who, c, m, t, uuid).Committed?
    ensures var o := AcceptNew(san, db, who, c, m, t, uuid);
            var durable, coordination := Durable(c, m.body), Coordination(c, m.body);
            && (m.body.AckReport? ==> m.body.ackSequence in c.server)
            && var v := MessageVerdict(san, db.book, c, who, m, t, durable, coordination, uuid);
               var s := Settle(v, durable, coordination);
               && m.sequence == c.lastClient + 1 && !s.Throw? && (m.body.Sync? ==> coordination)
               && (m.body.Hello? ==> v.Applied?) && (m.body.AckReport? ==> v.Applied? || v.Refused?)
               && (m.body.Sync? && s.Effect? ==> m.body.syncJob in db.book.jobs)
               && var a := Admit(who.connector, c, db.book, m, durable, coordination, s, t, uuid);
                  && o.db.book == a.book && who.connector in o.db.connectors
                  && o.db.connectors[who.connector] == Receipt(a.connector, m, durable, coordination, a.reply, t, uuid)
                  && o.reply == AdmissionReply(a, m)
  {
    hide Admit, Receipt, AdmissionReply, HasOriginalOffer, HasExpiredOffer, ClaimVerdict, EventVerdict, ApprovalVerdict;
    hide CancelledVerdict;
  }

  lemma AdmitShape(cid: Id, c: Connector, book: Book, m: ClientMessage, durable: bool, coordination: bool, s: Settled,
                   t: Times, uuid: nat -> Id)
    requires !s.Throw? && (m.body.Sync? && s.Effect? ==> m.body.syncJob in book.jobs)
    ensures var a := Admit(cid, c, book, m, durable, coordination, s, t, uuid);
            a.reply == ReplyTo(cid, a.connector, book, m, durable, coordination, s, t)
  {
    hide Advance, ReplyTo;
  }

  /** An error answer comes with an untouched book. */
  lemma ErrorLeavesBook(cid: Id, c: Connector, book: Book, m: ClientMessage, durable: bool, coordination: bool,
                        v: Verdict, t: Times, uuid: nat -> Id)
    requires !Settle(v, durable, coordination).Throw? && (v.Applied? && v.withdrawn ==> v.book == book)
    requires m.body.Sync? && v.Applied? ==> m.body.syncJob in book.jobs
    ensures var a := Admit(cid, c, book, m, durable, coordination, Settle(v, durable, coordination), t, uuid);
            a.reply.first.Some? && a.reply.first.value.ErrorBody? ==> a.book == book
  {
    hide Advance;
  }

  lemma WithdrawnLeavesBook(san: string -> string, book: Book, c: Connector, who: Identity, m: ClientMessage, t: Times,
                            durable: bool, coordination: bool, uuid: nat -> Id)
    requires m.body.AckReport? ==> m.body.ackSequence in c.server
    ensures var v := MessageVerdict(san, book, c, who, m, t, durable, coordination, uuid);
            v.Applied? && v.withdrawn ==> v.book == book
  {}

  lemma Accounting(cid: Id, a: Admission, c: Connector, m: ClientMessage, durable: bool, coordination: bool, t: Times,
                   uuid: nat -> Id)
    requires a.connector.lastServer == c.lastServer && ReplyOk(cid, c.lastServer, m, durable, coordination, a.reply)
    ensures var c' := Receipt(a.connector, m, durable, coordination, a.reply, t, uuid);
            var r := AdmissionReply(a, m);
            && c'.lastClient == a.connector.lastClient
            && (if r.response.None? then
                  c'.lastServer == c.lastServer && m.body.AckReport? && !durable
                else if m.body.Hello? || r.replay == [] then
                  && c'.lastServer == c.lastServer + 1 == r.response.value.sequence
                  && a.reply.first.Some? && r.response.value.body == a.reply.first.value
                else
                  && a.reply.first.Some? && c'.lastServer == c.lastServer + 2
                  && r.replay == [Delivered(c.lastServer + 1, a.reply.first.value)]
                  && r.response == Some(Delivered(c.lastServer + 2, AckOf(m.sequence)))
                  && durable && (a.reply.first.value.ErrorBody? || (m.body.Sync? && a.reply.first.value.State?)))
  {}
}
