/** A delivered approval resumes its job at most once, and only at the very
    revision its request created. */
module Resumption {
  import opened Common
  import opened ServerTypes
  import opened Business
  import opened Accept
  import opened Dispatch
  import opened Repository
  import opened Moves
  import opened ServerRuns
  import opened JobTheorems
  import opened Receipts
  import opened Delivery
  import opened Commands

  /** Every decision command in an outbox states the recorded decision of its approval. */
  ghost predicate DecisionsTrue(db: Db) {
    forall cid, s :: cid in db.connectors && s in db.connectors[cid].server
      && db.connectors[cid].server[s].body.DecisionCommand?
      ==> DecisionTrue(db.book, db.connectors[cid].server[s].body)
  }

  ghost predicate DecisionTrue(b: Book, body: ServerBody) {
    body.DecisionCommand? && body.approval in b.approvals && Matches(body, b.approvals[body.approval])
  }

  lemma DecisionsTrueStep(san: string -> string, db: Db, step: Step)
    requires ConnectorsOk(db) && BookOk(db.book) && StepOk(db, step) && DecisionsTrue(db)
    ensures DecisionsTrue(Apply(san, db, step))
  {
    var db' := Apply(san, db, step);
    StepMoves(san, db, step);
    ConnectorsKept(san, db, step);
    hide Apply, ConnectorOk, BookMove, ConnectorEvolves, StepOk, OfferedBy, BookOk;
    BookMoveEvolves(db.book, db'.book, step.t, OfferedBy(db, step));
    forall cid, s | cid in db'.connectors && s in db'.connectors[cid].server
      && db'.connectors[cid].server[s].body.DecisionCommand?
      ensures DecisionTrue(db'.book, db'.connectors[cid].server[s].body)
    {
      if NewCommand(db, db', cid, s) {
        CommandOrigin(san, db, step, cid, s);
      } else {
        assert DecisionTrue(db.book, db.connectors[cid].server[s].body);
      }
    }
  }

  lemma {:induction false} DecisionsTrueRun(san: string -> string, db: Db, steps: seq<Step>)
    requires Initial(db) && ValidRun(san, db, steps)
    ensures DecisionsTrue(Run(san, db, steps))
  {
    if steps != [] {
      var n := |steps| - 1;
      ValidPrefix(san, db, steps, n);
      DecisionsTrueRun(san, db, steps[..n]);
      InitialOk(db);
      BookOkRun(san, db, steps[..n]);
      ConnectorsRun(san, db, steps[..n]);
      hide Apply, ConnectorOk;
      DecisionsTrueStep(san, Run(san, db, steps[..n]), steps[n]);
    }
  }

  // ----- the event a step appends -----

  ghost predicate Approved(b: Book, j: Id, e: JobEvent)
    requires e.ResumedEvent?
  {
    && e.resumedBy in b.approvals
    && var a := b.approvals[e.resumedBy];
       a.job == j && a.decision == Some(Approve) && a.revision == e.resumedRevision && a.attempt == e.resumedAttempt
  }

  /** `b'` appends to job `j` a resumption justified by an approved decision at the job's revision. */
  ghost predicate Resumption(b: Book, b': Book, j: Id, e: JobEvent) {
    && e.ResumedEvent? && j in b.jobs && j in b'.jobs
    && Approved(b, j, e)
    && b.jobs[j].status.WaitingApproval? && b.jobs[j].revision == e.resumedRevision
    && b'.jobs[j].revision == e.resumedRevision + 1 && b'.jobs[j].status.Running?
  }

  /** The last event of `j` in `b'` is new. */
  predicate Appended(b: Book, b': Book, j: Id) {
    j in b.events && j in b'.events && |b'.events[j]| == |b.events[j]| + 1
  }

  ghost predicate ResumesJustified(b: Book, b': Book) {
    forall j :: Appended(b, b', j) && b'.events[j][|b.events[j]|].ResumedEvent? ==>
      Resumption(b, b', j, b'.events[j][|b.events[j]|])
  }

  lemma AckJustified(book: Book, c: Connector, m: ClientMessage, t: Times)
    requires EventsKeyed(book) && m.body.AckReport? && m.body.ackSequence in c.server
    requires c.server[m.body.ackSequence].body.DecisionCommand? ==>
             DecisionTrue(book, c.server[m.body.ackSequence].body)
    ensures var v := AckVerdict(book, c, m, t); v.Applied? ==> ResumesJustified(book, v.book)
  {}

  lemma OthersAppendNoResume(san: string -> string, book: Book, c: Connector, who: Identity, m: ClientMessage, t: Times,
                             durable: bool, coordination: bool, uuid: nat -> Id)
    requires EventsKeyed(book) && !m.body.AckReport?
    ensures var v := MessageVerdict(san, book, c, who, m, t, durable, coordination, uuid);
            v.Applied? ==> ResumesJustified(book, v.book)
  {
    match m.body
    case Claim(_, _, _) => ClaimAppends(book, c, who, m, t, durable, coordination, uuid);
    case Event(_, _, _, _, _) => EventAppends(san, book, c, who, m, t, coordination);
    case ApprovalRequest(_, _, _, _, _, _) => ApprovalAppends(book, c, who, m, t, coordination);
    case CancelledReport(_, _, _) => CancelledAppends(book, c, who, m, t, coordination);
    case _ =>
  }

  lemma AppendJustified(b: Book, id: Id, e: JobEvent, jobs: map<Id, Job>, approvals: map<Id, Approval>)
    requires EventsKeyed(b) && id in b.jobs && !e.ResumedEvent?
    ensures ResumesJustified(b, AppendEvent(b.(jobs := jobs), id, e))
    ensures ResumesJustified(b, AppendEvent(b.(jobs := jobs), id, e).(approvals := approvals))
  {}

  lemma ClaimAppends(book: Book, c: Connector, who: Identity, m: ClientMessage, t: Times, durable: bool,
                     coordination: bool, uuid: nat -> Id)
    requires EventsKeyed(book) && m.body.Claim?
    ensures var v := ClaimVerdict(book, c, who, m, t, durable, coordination, uuid);
            v.Applied? ==> ResumesJustified(book, v.book)
  {
    var v := ClaimVerdict(book, c, who, m, t, durable, coordination, uuid);
    if v.Applied? && !v.withdrawn {
      AppendJustified(book, m.body.claimJob, ClaimEvent(who.connector, m.body.claimAttempt), v.book.jobs,
                      book.approvals);
    }
  }

  lemma EventAppends(san: string -> string, book: Book, c: Connector, who: Identity, m: ClientMessage, t: Times,
                     coordination: bool)
    requires EventsKeyed(book) && m.body.Event?
    ensures var v := EventVerdict(san, book, c, who, m, t, coordination); v.Applied? ==> ResumesJustified(book, v.book)
  {
    var v := EventVerdict(san, book, c, who, m, t, coordination);
    if v.Applied? {
      var e := ClientEvent(san(m.body.eventType),
                           if m.body.eventStatus.Some? then Some(san(m.body.eventStatus.value)) else None);
      AppendJustified(book, m.body.eventJob, e, v.book.jobs, book.approvals);
      assert v.book == AppendEvent(book.(jobs := v.book.jobs), m.body.eventJob, e);
    }
  }

  lemma ApprovalAppends(book: Book, c: Connector, who: Identity, m: ClientMessage, t: Times, coordination: bool)
    requires EventsKeyed(book) && m.body.ApprovalRequest?
    ensures var v := ApprovalVerdict(book, c, who, m, t, coordination); v.Applied? ==> ResumesJustified(book, v.book)
  {
    var v := ApprovalVerdict(book, c, who, m, t, coordination);
    if v.Applied? {
      var e := ApprovalRequestedEvent(m.body.approval, m.body.approvalRevision);
      AppendJustified(book, m.body.approvalJob, e, v.book.jobs, v.book.approvals);
      assert v.book == AppendEvent(book.(jobs := v.book.jobs), m.body.approvalJob, e).(approvals := v.book.approvals);
    }
  }

  lemma CancelledAppends(book: Book, c: Connector, who: Identity, m: ClientMessage, t: Times, coordination: bool)
    requires EventsKeyed(book) && m.body.CancelledReport?
    ensures var v := CancelledVerdict(book, c, who, m, t, coordination); v.Applied? ==> ResumesJustified(book, v.book)
  {
    var v := CancelledVerdict(book, c, who, m, t, coordination);
    if v.Applied? {
      AppendJustified(book, m.body.cancelledJob, ClientCancelledEvent, v.book.jobs, book.approvals);
      assert v.book == AppendEvent(book.(jobs := v.book.jobs), m.body.cancelledJob, ClientCancelledEvent);
    }
  }

  lemma AcceptJustified(san: string -> string, db: Db, who: Identity, m: ClientMessage, t: Times, uuid: nat -> Id)
    requires EventsKeyed(db.book) && DecisionsTrue(db)
    ensures ResumesJustified(db.book, Result(db, AcceptMessage(san, db, who, m, t, uuid)).book)
  {
    AcceptedBook(san, db, who, m, t, uuid);
    hide AcceptMessage;
    var o := AcceptMessage(san, db, who, m, t, uuid);
    if o.Committed? && o.db.book != db.book {
      var c := db.connectors[who.connector];
      if m.body.AckReport? {
        AckJustified(db.book, c, m, t);
      } else {
        OthersAppendNoResume(san, db.book, c, who, m, t, Durable(c, m.body), Coordination(c, m.body), uuid);
      }
    }
  }

  lemma CancelJustified(db: Db, owner: Id, id: Id, expected: nat, t: Times, nonce: Id, correlation: Id, uuid: nat -> Id)
    requires EventsKeyed(db.book)
    ensures ResumesJustified(db.book,
                             Result(db, CancelAtomically(db, owner, id, expected, t, nonce, correlation, uuid)).book)
  {}

  lemma DecideJustified(db: Db, i: DecideInput, t: Times, correlation: Id, uuid: nat -> Id)
    requires EventsKeyed(db.book)
    ensures ResumesJustified(db.book, Result(db, RecordDecision(db, i, t, correlation, uuid)).book)
  {}

  lemma StepJustified(san: string -> string, db: Db, step: Step)
    requires JobsOk(db.book) && StepOk(db, step) && DecisionsTrue(db)
    ensures ResumesJustified(db.book, Apply(san, db, step).book)
  {
    hide AcceptMessage, DispatchNext, PendingMessages, ReportFailure, CreateIdempotent, CancelAtomically, ClaimOffer;
    hide RecordDecision;
    hide ResumesJustified, DecisionsTrue;
    match step
    case AcceptStep(who, m, t, uuid) => AcceptJustified(san, db, who, m, t, uuid);
    case DispatchStep(who, choice, t, lease, correlation, uuid) =>
      DispatchJustified(db, who, choice, t, lease, correlation, uuid);
    case CreateStep(key, digest, repository, mode, newId, t) =>
      CreateJustified(db, key, digest, repository, mode, newId, t);
    case CancelStep(owner, id, expected, t, nonce, correlation, uuid) =>
      CancelJustified(db, owner, id, expected, t, nonce, correlation, uuid);
    case ClaimOfferStep(id, connector, attempt, lease, t) => ClaimOfferJustified(db, id, connector, attempt, lease, t);
    case DecideStep(input, t, correlation, uuid) => DecideJustified(db, input, t, correlation, uuid);
    case PendingStep(who, after, t, uuid) => NothingJustified(db.book); PendingBook(db, who, after, t, uuid);
    case FailureStep(who, detail, t, correlation, uuid) =>
      NothingJustified(db.book); FailureBook(db, who, detail, t, correlation, uuid);
  }

  lemma NothingJustified(b: Book)
    ensures ResumesJustified(b, b)
  {}

  lemma PendingBook(db: Db, who: Identity, after: nat, t: Times, uuid: nat -> Id)
    ensures Result(db, PendingMessages(db, who, after, t, uuid)).book == db.book
  {}

  lemma FailureBook(db: Db, who: Identity, detail: Id, t: Times, correlation: Id, uuid: nat -> Id)
    ensures Result(db, ReportFailure(db, who, detail, t, correlation, uuid)).book == db.book
  {}

  lemma DispatchJustified(db: Db, who: Identity, choice: Id, t: Times, lease: Id, correlation: Id, uuid: nat -> Id)
    requires JobsOk(db.book) && t.Ordered()
    ensures ResumesJustified(db.book, Result(db, DispatchNext(db, who, choice, t, lease, correlation, uuid)).book)
  {
    DispatchedBook(db, who, choice, t, lease, correlation, uuid);
    hide DispatchNext;
  }

  lemma CreateJustified(db: Db, key: CreateKey, digest: Id, repository: Id, mode: Mode, newId: Id, t: Times)
    requires EventsKeyed(db.book) && newId !in db.book.jobs
    ensures ResumesJustified(db.book, Result(db, CreateIdempotent(db, key, digest, repository, mode, newId, t)).book)
  {}

  lemma ClaimOfferJustified(db: Db, id: Id, connector: Id, attempt: nat, lease: Id, t: Times)
    requires EventsKeyed(db.book)
    ensures ResumesJustified(db.book, Result(db, ClaimOffer(db, id, connector, attempt, lease, t)).book)
  {
    var o := ClaimOffer(db, id, connector, attempt, lease, t);
    if o.Committed? && o.reply.Some? {
      AppendJustified(db.book, id, ClaimEvent(connector, attempt), o.db.book.jobs, db.book.approvals);
    }
  }

  // ----- the events of a run -----

  /** Every resumption of a job names an approved approval of that job at that
      revision, which the job has since left behind; later ones have later
      revisions. */
  ghost predicate ResumptionsOk(b: Book) {
    && (forall j, i :: j in b.events && 0 <= i < |b.events[j]| && b.events[j][i].ResumedEvent? ==>
          ResumptionOk(b, j, b.events[j][i]))
    && (forall j, i, k ::
          j in b.events && 0 <= i < k < |b.events[j]| && b.events[j][i].ResumedEvent? && b.events[j][k].ResumedEvent?
          ==> b.events[j][i].resumedRevision < b.events[j][k].resumedRevision)
  }

  ghost predicate ResumptionOk(b: Book, j: Id, e: JobEvent) {
    && e.ResumedEvent? && j in b.jobs && e.resumedBy in b.approvals
    && var a := b.approvals[e.resumedBy];
       a.job == j && a.decision == Some(Approve) && a.revision == e.resumedRevision < b.jobs[j].revision
  }

  lemma ResumptionKept(b: Book, b': Book, j: Id, e: JobEvent)
    requires BookEvolves(b, b') && ResumptionOk(b, j, e)
    ensures ResumptionOk(b', j, e)
  {
    assert JobEvolves(b.jobs[j], b'.jobs[j]);
    assert ApprovalEvolves(b.approvals[e.resumedBy], b'.approvals[e.resumedBy]);
  }

  lemma ResumptionsKept(b: Book, b': Book)
    requires EventsKeyed(b) && ResumptionsOk(b) && BookEvolves(b, b') && EventsMove(b.events, b'.events)
             && ResumesJustified(b, b')
    ensures ResumptionsOk(b')
  {
    forall j, i | j in b'.events && 0 <= i < |b'.events[j]| && b'.events[j][i].ResumedEvent?
      ensures ResumptionOk(b', j, b'.events[j][i])
    {
      ResumptionAt(b, b', j, i);
    }
    forall j, i, k | j in b'.events && 0 <= i < k < |b'.events[j]| && b'.events[j][i].ResumedEvent?
      && b'.events[j][k].ResumedEvent?
      ensures b'.events[j][i].resumedRevision < b'.events[j][k].resumedRevision
    {
      assert b'.events[j][i] == b'.events[j][..|b.events[j]|][i];
      if k < |b.events[j]| {
        assert b'.events[j][k] == b'.events[j][..|b.events[j]|][k];
      } else {
        assert Appended(b, b', j);
        assert ResumptionOk(b, j, b.events[j][i]);
      }
    }
  }

  lemma ResumptionAt(b: Book, b': Book, j: Id, i: nat)
    requires EventsKeyed(b) && ResumptionsOk(b) && BookEvolves(b, b') && EventsMove(b.events, b'.events)
             && ResumesJustified(b, b')
    requires j in b'.events && i < |b'.events[j]| && b'.events[j][i].ResumedEvent?
    ensures ResumptionOk(b', j, b'.events[j][i])
  {
    if i < |b.events[j]| {
      assert b'.events[j][i] == b'.events[j][..|b.events[j]|][i];
      ResumptionKept(b, b', j, b.events[j][i]);
    } else {
      assert Appended(b, b', j);
      var e := b'.events[j][i];
      assert Resumption(b, b', j, e);
      assert ApprovalEvolves(b.approvals[e.resumedBy], b'.approvals[e.resumedBy]);
    }
  }

  /** Each resumption in the log of any run matches a distinct approved
      decision of that job, in order of revision. */
  lemma {:induction false} ResumptionsMatchDecisions(san: string -> string, db: Db, steps: seq<Step>)
    requires Initial(db) && ValidRun(san, db, steps)
    ensures ResumptionsOk(Run(san, db, steps).book)
  {
    if steps != [] {
      var n := |steps| - 1;
      ValidPrefix(san, db, steps, n);
      ResumptionsMatchDecisions(san, db, steps[..n]);
      DecisionsTrueRun(san, db, steps[..n]);
      BookOkRun(san, db, steps[..n]);
      ResumptionsStep(san, Run(san, db, steps[..n]), steps[n]);
    }
  }

  lemma ResumptionsStep(san: string -> string, db: Db, step: Step)
    requires BookOk(db.book) && StepOk(db, step) && DecisionsTrue(db) && ResumptionsOk(db.book)
    ensures ResumptionsOk(Apply(san, db, step).book)
  {
    StepMoves(san, db, step);
    StepJustified(san, db, step);
    hide Apply;
    BookMoveEvolves(db.book, Apply(san, db, step).book, step.t, OfferedBy(db, step));
    ResumptionsKept(db.book, Apply(san, db, step).book);
  }

  /** No other write touches the job between a request and the delivery that
      resumes it: the job the resumption finds is the very record the request
      left, whatever else the run did in between. */
  lemma NothingBetweenRequestAndResume(san: string -> string, db: Db, steps: seq<Step>, r: nat, k: nat, j: Id)
    requires Initial(db) && ValidRun(san, db, steps) && r < k < |steps|
    requires var b, b' := At(san, db, steps, k).book, At(san, db, steps, k + 1).book;
             && Appended(b, b', j) && b'.events[j][|b.events[j]|].ResumedEvent?
             && var a := b'.events[j][|b.events[j]|].resumedBy;
                a !in At(san, db, steps, r).book.approvals && a in At(san, db, steps, r + 1).book.approvals
    ensures j in At(san, db, steps, r + 1).book.jobs && j in At(san, db, steps, k).book.jobs
    ensures At(san, db, steps, k).book.jobs[j] == At(san, db, steps, r + 1).book.jobs[j]
  {
    hide Run, ConnectorOk;
    InitialOk(db);
    JustifiedAt(san, db, steps, k);
    MoveAt(san, db, steps, r);
    HistoryOnlyGrows(san, db, steps, r + 1, k);
    var b, b' := At(san, db, steps, k).book, At(san, db, steps, k + 1).book;
    var e := b'.events[j][|b.events[j]|];
    RequestLeavesJob(At(san, db, steps, r).book, At(san, db, steps, r + 1).book, b, b', j, e);
  }

  lemma JustifiedAt(san: string -> string, db: Db, steps: seq<Step>, k: nat)
    requires Initial(db) && ValidRun(san, db, steps) && k < |steps|
    ensures ResumesJustified(At(san, db, steps, k).book, At(san, db, steps, k + 1).book)
  {
    InitialOk(db);
    ValidPrefix(san, db, steps, k);
    DecisionsTrueRun(san, db, steps[..k]);
    OkAt(san, db, steps, k);
    RunPrefix(san, db, steps, k);
    hide Run, Apply;
    StepJustified(san, At(san, db, steps, k), steps[k]);
  }

  lemma RequestLeavesJob(before: Book, after: Book, b: Book, b': Book, j: Id, e: JobEvent)
    requires ApprovalsMove(before, after) && BookEvolves(after, b) && Resumption(b, b', j, e)
    requires e.resumedBy !in before.approvals && e.resumedBy in after.approvals
    ensures j in after.jobs && j in b.jobs && b.jobs[j] == after.jobs[j]
  {
    assert NewApproval(before, after, after.approvals[e.resumedBy]);
    assert ApprovalEvolves(after.approvals[e.resumedBy], b.approvals[e.resumedBy]);
    assert JobEvolves(after.jobs[j], b.jobs[j]);
  }
}
