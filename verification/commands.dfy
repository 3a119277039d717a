/** Cancellation and approval commands over whole runs: each is enqueued at
    most once, and a delivered approval resumes a job only at the revision its
    request created. */
module Commands {
  import opened Common
  import opened ServerTypes
  import opened OutboxRows
  import opened Business
  import opened Accept
  import opened Dispatch
  import opened Repository
  import opened Moves
  import opened ServerRuns
  import opened JobTheorems
  import opened Receipts
  import opened Replay
  import opened Delivery

  /** Row `s` of connector `cid` is a command that was not there before. */
  ghost predicate NewCommand(db: Db, db': Db, cid: Id, s: nat) {
    && cid in db.connectors && cid in db'.connectors && s in db'.connectors[cid].server
    && var b := db'.connectors[cid].server[s].body;
       IsCommand(b) && !(s in db.connectors[cid].server && db.connectors[cid].server[s].body == b)
  }

  // ----- which transactions enqueue commands -----

  lemma NoNewTransitive(a: map<nat, ServerRow>, b: map<nat, ServerRow>, c: map<nat, ServerRow>)
    requires NoNewCommand(a, b) && NoNewCommand(b, c)
    ensures NoNewCommand(a, c)
  {}

  lemma AdmitNoCommand(cid: Id, c: Connector, book: Book, m: ClientMessage, durable: bool, coordination: bool,
                       v: Verdict, t: Times, uuid: nat -> Id)
    requires Dense(c) && VerdictOk(c, book, m, coordination, v) && !Settle(v, durable, coordination).Throw?
    requires (coordination ==> durable) && (m.body.Sync? ==> coordination)
    requires (m.body.Hello? ==> v.Applied?) && (m.body.AckReport? ==> v.Applied? || v.Refused?)
    ensures var a := Admit(cid, c, book, m, durable, coordination, Settle(v, durable, coordination), t, uuid);
            a.connector.lastServer + Width(a.reply) <= MAX_SAFE ==>
              NoNewCommand(c.server, Receipt(a.connector, m, durable, coordination, a.reply, t, uuid).server)
  {
    var s := Settle(v, durable, coordination);
    var k := if s.Effect? then s.connector else c;
    AdvanceChange(k, if s.Effect? then s.book.jobs else book.jobs, m, durable, coordination, t, uuid);
    var a := Admit(cid, c, book, m, durable, coordination, s, t, uuid);
    ReplyIsOk(cid, c, a.connector, book, m, durable, coordination, v, t);
    NoNewTransitive(c.server, k.server, a.connector.server);
    if a.connector.lastServer + Width(a.reply) <= MAX_SAFE {
      NewRowOk(cid, a.connector, m, durable, coordination, a.reply, t, uuid);
      NoNewTransitive(c.server, a.connector.server,
                      Receipt(a.connector, m, durable, coordination, a.reply, t, uuid).server);
    }
  }

  /** A stored response is never a command, so writing one back adds none. */
  lemma RefreshNoCommand(cid: Id, c: Connector, m: ClientMessage, row: ClientRow, receipt: bool, t: Times,
                         uuid: nat -> Id)
    ensures var f := FindOriginal(cid, c, m, row, receipt);
            && (f.Found? ==> f.sequence in c.server)
            && NoNewCommand(c.server, RefreshIfNeeded(c, f, t, uuid).server)
  {}

  lemma ReplayNoCommand(db: Db, cid: Id, c: Connector, m: ClientMessage, row: ClientRow, t: Times, uuid: nat -> Id)
    ensures var o := AcceptDuplicate(db, cid, c, m, row, t, uuid);
            o.Committed? ==> cid in o.db.connectors && NoNewCommand(c.server, o.db.connectors[cid].server)
  {
    RefreshNoCommand(cid, c, m, row, false, t, uuid);
    var c1 := RefreshIfNeeded(c, FindOriginal(cid, c, m, row, false), t, uuid);
    RefreshNoCommand(cid, c1, m, row, true, t, uuid);
    var c2 := RefreshIfNeeded(c1, FindOriginal(cid, c1, m, row, true), t, uuid);
    NoNewTransitive(c.server, c1.server, c2.server);
    hide FindOriginal, RefreshIfNeeded, NoNewCommand;
  }

  lemma AcceptNoCommand(san: string -> string, db: Db, who: Identity, m: ClientMessage, t: Times, uuid: nat -> Id)
    requires ConnectorsOk(db)
    ensures var o := AcceptMessage(san, db, who, m, t, uuid);
            o.Committed? ==>
              && who.connector in o.db.connectors
              && NoNewCommand(db.connectors[who.connector].server, o.db.connectors[who.connector].server)
  {
    var o := AcceptMessage(san, db, who, m, t, uuid);
    if o.Committed? {
      var c := db.connectors[who.connector];
      if m.id in c.client {
        ReplayNoCommand(db, who.connector, c, m, c.client[m.id], t, uuid);
      } else {
        assert ConnectorOk(who.connector, c);
        NewNoCommand(san, db, who, c, m, t, uuid);
      }
    }
  }

  lemma NewNoCommand(san: string -> string, db: Db, who: Identity, c: Connector, m: ClientMessage, t: Times,
                     uuid: nat -> Id)
    requires Dense(c)
    ensures var o := AcceptNew(san, db, who, c, m, t, uuid);
            o.Committed? ==>
              who.connector in o.db.connectors && NoNewCommand(c.server, o.db.connectors[who.connector].server)
  {
    var o := AcceptNew(san, db, who, c, m, t, uuid);
    if o.Committed? {
      var durable, coordination := Durable(c, m.body), Coordination(c, m.body);
      MessageVerdictOk(san, db.book, c, who, m, t, durable, coordination, uuid);
      AdmitNoCommand(who.connector, c, db.book, m, durable, coordination,
                     MessageVerdict(san, db.book, c, who, m, t, durable, coordination, uuid), t, uuid);
    }
  }

  ghost predicate CancelEnqueued(db: Db, db': Db, b: ServerBody) {
    && b.CancelCommand? && b.cancelJob in db.book.jobs && b.cancelJob in db'.book.jobs
    && db.book.jobs[b.cancelJob].cancelRevision.None?
    && db'.book.jobs[b.cancelJob].cancelRevision == Some(b.cancelAt)
    && b.cancelAt == db'.book.jobs[b.cancelJob].revision
    && b.cancelAttempt == db'.book.jobs[b.cancelJob].attempt == db.book.jobs[b.cancelJob].attempt
    && db'.book.jobs[b.cancelJob].status.Cancelling?
  }

  ghost predicate Matches(b: ServerBody, a: Approval) {
    b.DecisionCommand? && a.job == b.decisionJob && a.attempt == b.decisionAttempt && a.revision == b.decisionRevision
    && a.fingerprint == b.fingerprint && a.decision == Some(b.decision)
  }

  ghost predicate DecisionEnqueued(db: Db, db': Db, b: ServerBody) {
    && b.DecisionCommand? && b.approval in db.book.approvals && b.approval in db'.book.approvals
    && db.book.approvals[b.approval].decision.None? && Matches(b, db'.book.approvals[b.approval])
  }

  lemma CancelCommands(db: Db, owner: Id, id: Id, expected: nat, t: Times, nonce: Id, correlation: Id, uuid: nat -> Id,
                       cid: Id, s: nat)
    requires JobsOk(db.book)
    requires var db' := Result(db, CancelAtomically(db, owner, id, expected, t, nonce, correlation, uuid));
             NewCommand(db, db', cid, s)
    ensures var db' := Result(db, CancelAtomically(db, owner, id, expected, t, nonce, correlation, uuid));
            CancelEnqueued(db, db', db'.connectors[cid].server[s].body)
  {
    assert JobOk(db.book.jobs[id]);
  }

  lemma DecideCommands(db: Db, i: DecideInput, t: Times, correlation: Id, uuid: nat -> Id, cid: Id, s: nat)
    requires var db' := Result(db, RecordDecision(db, i, t, correlation, uuid)); NewCommand(db, db', cid, s)
    ensures var db' := Result(db, RecordDecision(db, i, t, correlation, uuid));
            DecisionEnqueued(db, db', db'.connectors[cid].server[s].body)
  {}

  /** A new command row comes only from the cancellation of a job not cancelled
      before, or from the decision of an approval not decided before. */
  lemma CommandOrigin(san: string -> string, db: Db, step: Step, cid: Id, s: nat)
    requires ConnectorsOk(db) && JobsOk(db.book) && NewCommand(db, Apply(san, db, step), cid, s)
    ensures var db' := Apply(san, db, step);
            var b := db'.connectors[cid].server[s].body;
            CancelEnqueued(db, db', b) || DecisionEnqueued(db, db', b)
  {
    hide AcceptMessage, DispatchNext, PendingMessages, ReportFailure, CreateIdempotent, CancelAtomically, ClaimOffer;
    hide RecordDecision;
    hide ConnectorOk, CancelEnqueued, DecisionEnqueued, NewCommand;
    match step
    case CancelStep(owner, job, expected, t, nonce, correlation, uuid) =>
      CancelCommands(db, owner, job, expected, t, nonce, correlation, uuid, cid, s);
    case DecideStep(input, t, correlation, uuid) => DecideCommands(db, input, t, correlation, uuid, cid, s);
    case _ => OthersAddNone(san, db, step, cid, s);
  }

  lemma SameConnectors(db: Db, db': Db, cid: Id, s: nat)
    requires db'.connectors == db.connectors
    ensures !NewCommand(db, db', cid, s)
  {}

  lemma CreateKeepsConnectors(db: Db, key: CreateKey, digest: Id, repository: Id, mode: Mode, newId: Id, t: Times)
    ensures Result(db, CreateIdempotent(db, key, digest, repository, mode, newId, t)).connectors == db.connectors
  {}

  lemma ClaimKeepsConnectors(db: Db, id: Id, connector: Id, attempt: nat, lease: Id, t: Times)
    ensures Result(db, ClaimOffer(db, id, connector, attempt, lease, t)).connectors == db.connectors
  {}

  lemma AcceptAddsNone(san: string -> string, db: Db, who: Identity, m: ClientMessage, t: Times, uuid: nat -> Id,
                       cid: Id, s: nat)
    requires ConnectorsOk(db)
    ensures !NewCommand(db, Result(db, AcceptMessage(san, db, who, m, t, uuid)), cid, s)
  {
    hide AcceptMessage, ConnectorOk, ConnectorEvolves;
    AcceptNoCommand(san, db, who, m, t, uuid);
    AcceptKeeps(san, db, who, m, t, uuid);
  }

  lemma DispatchAddsNone(db: Db, who: Identity, choice: Id, t: Times, lease: Id, correlation: Id, uuid: nat -> Id,
                         cid: Id, s: nat)
    ensures !NewCommand(db, Result(db, DispatchNext(db, who, choice, t, lease, correlation, uuid)), cid, s)
  {
    hide HasSlot, WriteJob;
  }

  lemma PendingAddsNone(db: Db, who: Identity, after: nat, t: Times, uuid: nat -> Id, cid: Id, s: nat)
    requires ConnectorsOk(db)
    ensures !NewCommand(db, Result(db, PendingMessages(db, who, after, t, uuid)), cid, s)
  {
    if who.connector in db.connectors {
      assert ConnectorOk(who.connector, db.connectors[who.connector]);
      TombstoneChange(db.connectors[who.connector], db.book.jobs, after, t.now, uuid);
      hide TombstoneBatch, ConnectorOk, Batch;
    }
  }

  lemma FailureAddsNone(db: Db, who: Identity, detail: Id, t: Times, correlation: Id, uuid: nat -> Id, cid: Id, s: nat)
    ensures !NewCommand(db, Result(db, ReportFailure(db, who, detail, t, correlation, uuid)), cid, s)
  {}

  // ----- one command row a step -----

  lemma CancelAddsOne(db: Db, owner: Id, id: Id, expected: nat, t: Times, nonce: Id, correlation: Id, uuid: nat -> Id,
                      cid: Id, s: nat, cid': Id, s': nat)
    requires var db' := Result(db, CancelAtomically(db, owner, id, expected, t, nonce, correlation, uuid));
             NewCommand(db, db', cid, s) && NewCommand(db, db', cid', s')
    ensures cid == cid' && s == s'
  {
    hide WriteJob;
  }

  lemma DecideAddsOne(db: Db, i: DecideInput, t: Times, correlation: Id, uuid: nat -> Id,
                      cid: Id, s: nat, cid': Id, s': nat)
    requires var db' := Result(db, RecordDecision(db, i, t, correlation, uuid));
             NewCommand(db, db', cid, s) && NewCommand(db, db', cid', s')
    ensures cid == cid' && s == s'
  {
    hide AppendEvent;
  }

  /** No transaction adds two command rows, on one connector or on two. */
  lemma OneCommandAStep(san: string -> string, db: Db, step: Step, cid: Id, s: nat, cid': Id, s': nat)
    requires ConnectorsOk(db)
    requires NewCommand(db, Apply(san, db, step), cid, s) && NewCommand(db, Apply(san, db, step), cid', s')
    ensures cid == cid' && s == s'
  {
    hide AcceptMessage, DispatchNext, PendingMessages, ReportFailure, CreateIdempotent, CancelAtomically, ClaimOffer;
    hide RecordDecision, ConnectorOk, NewCommand;
    match step
    case CancelStep(owner, job, expected, t, nonce, correlation, uuid) =>
      CancelAddsOne(db, owner, job, expected, t, nonce, correlation, uuid, cid, s, cid', s');
    case DecideStep(input, t, correlation, uuid) => DecideAddsOne(db, input, t, correlation, uuid, cid, s, cid', s');
    case _ => OthersAddNone(san, db, step, cid, s);
  }

  /** Only cancellations and decisions add command rows. */
  lemma OthersAddNone(san: string -> string, db: Db, step: Step, cid: Id, s: nat)
    requires ConnectorsOk(db) && !step.CancelStep? && !step.DecideStep?
    ensures !NewCommand(db, Apply(san, db, step), cid, s)
  {
    hide AcceptMessage, DispatchNext, PendingMessages, ReportFailure, CreateIdempotent, ClaimOffer;
    hide ConnectorOk, NewCommand;
    match step
    case AcceptStep(who, m, t, uuid) => AcceptAddsNone(san, db, who, m, t, uuid, cid, s);
    case DispatchStep(who, choice, t, lease, correlation, uuid) =>
      DispatchAddsNone(db, who, choice, t, lease, correlation, uuid, cid, s);
    case PendingStep(who, after, t, uuid) => PendingAddsNone(db, who, after, t, uuid, cid, s);
    case FailureStep(who, detail, t, correlation, uuid) =>
      FailureAddsNone(db, who, detail, t, correlation, uuid, cid, s);
    case CreateStep(key, digest, repository, mode, newId, t) =>
      CreateKeepsConnectors(db, key, digest, repository, mode, newId, t);
      SameConnectors(db, Apply(san, db, step), cid, s);
    case ClaimOfferStep(job, connector, attempt, lease, t) =>
      ClaimKeepsConnectors(db, job, connector, attempt, lease, t);
      SameConnectors(db, Apply(san, db, step), cid, s);
  }

  lemma OneCommandAt(san: string -> string, db: Db, steps: seq<Step>, k: nat, cid: Id, s: nat, cid': Id, s': nat)
    requires Initial(db) && k < |steps|
    requires NewCommand(At(san, db, steps, k), At(san, db, steps, k + 1), cid, s)
    requires NewCommand(At(san, db, steps, k), At(san, db, steps, k + 1), cid', s')
    ensures cid == cid' && s == s'
  {
    InitialOk(db);
    hide Run, Apply, ConnectorOk, NewCommand;
    ConnectorsRun(san, db, steps[..k]);
    RunPrefix(san, db, steps, k);
    OneCommandAStep(san, At(san, db, steps, k), steps[k], cid, s, cid', s');
  }

  /** At most one job.cancel is ever enqueued for a job: any two new rows of a run
      that carry one are the same row of the same connector, added by one step. */
  lemma CancelCommandOnce(san: string -> string, db: Db, steps: seq<Step>, k: nat, k': nat, cid: Id, s: nat, cid': Id,
                          s': nat)
    requires Initial(db) && ValidRun(san, db, steps) && k < |steps| && k' < |steps|
    requires NewCommand(At(san, db, steps, k), At(san, db, steps, k + 1), cid, s)
    requires NewCommand(At(san, db, steps, k'), At(san, db, steps, k' + 1), cid', s')
    requires var b, b' := At(san, db, steps, k + 1).connectors[cid].server[s].body,
             At(san, db, steps, k' + 1).connectors[cid'].server[s'].body;
             b.CancelCommand? && b'.CancelCommand? && b.cancelJob == b'.cancelJob
    ensures k == k' && cid == cid' && s == s'
  {
    hide Run, Apply;
    CommandAt(san, db, steps, k, cid, s);
    CommandAt(san, db, steps, k', cid', s');
    if k < k' {
      HistoryOnlyGrows(san, db, steps, k + 1, k');
    } else if k' < k {
      HistoryOnlyGrows(san, db, steps, k' + 1, k);
    } else {
      OneCommandAt(san, db, steps, k, cid, s, cid', s');
    }
  }

  /** At most one approval.decision is ever enqueued for an approval, in the same sense. */
  lemma DecisionCommandOnce(san: string -> string, db: Db, steps: seq<Step>, k: nat, k': nat, cid: Id, s: nat, cid': Id,
                            s': nat)
    requires Initial(db) && ValidRun(san, db, steps) && k < |steps| && k' < |steps|
    requires NewCommand(At(san, db, steps, k), At(san, db, steps, k + 1), cid, s)
    requires NewCommand(At(san, db, steps, k'), At(san, db, steps, k' + 1), cid', s')
    requires var b, b' := At(san, db, steps, k + 1).connectors[cid].server[s].body,
             At(san, db, steps, k' + 1).connectors[cid'].server[s'].body;
             b.DecisionCommand? && b'.DecisionCommand? && b.approval == b'.approval
    ensures k == k' && cid == cid' && s == s'
  {
    hide Run, Apply;
    CommandAt(san, db, steps, k, cid, s);
    CommandAt(san, db, steps, k', cid', s');
    if k < k' {
      HistoryOnlyGrows(san, db, steps, k + 1, k');
    } else if k' < k {
      HistoryOnlyGrows(san, db, steps, k' + 1, k);
    } else {
      OneCommandAt(san, db, steps, k, cid, s, cid', s');
    }
  }

  lemma CommandAt(san: string -> string, db: Db, steps: seq<Step>, k: nat, cid: Id, s: nat)
    requires Initial(db) && ValidRun(san, db, steps) && k < |steps|
    requires NewCommand(At(san, db, steps, k), At(san, db, steps, k + 1), cid, s)
    ensures var d, d' := At(san, db, steps, k), At(san, db, steps, k + 1);
            var b := d'.connectors[cid].server[s].body;
            CancelEnqueued(d, d', b) || DecisionEnqueued(d, d', b)
  {
    InitialOk(db);
    hide Run, Apply, ConnectorOk;
    ConnectorsRun(san, db, steps[..k]);
    OkAt(san, db, steps, k);
    RunPrefix(san, db, steps, k);
    CommandOrigin(san, At(san, db, steps, k), steps[k], cid, s);
  }
}
