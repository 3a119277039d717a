/** Where the two ends meet: what the connector's journal lets out, and what the
    control plane makes of it. */
module Agreement {
  import opened Common
  import opened JobState
  import S = ServerTypes
  import opened Business
  import opened Accept
  import Receipts
  import D = Deadlines
  import J = JournalTypes
  import Journal
  import Inbound
  import Authority
  import Binary64
  import Conservative
  import Delivery
  import ServerRuns
  import JournalRuns
  import JournalTheorems

  // ----- the connector's messages as the control plane reads them -----

  function EventStatus(d: J.Detail): Option<string> {
    if d.Free? then d.status else None
  }

  function OnServer(b: J.Body): S.ClientBody
    requires b.JobEvent? || b.JobCancelled?
  {
    if b.JobEvent? then S.Event(b.job, b.attempt, b.eventType, EventStatus(b.detail), 0)
    else S.CancelledReport(b.job, b.attempt, 0)
  }

  /** Sanitizing leaves the protocol's own event types alone. */
  predicate KeepsEventTypes(san: string -> string) {
    && san("job.succeeded") == "job.succeeded" && san("job.failed") == "job.failed"
    && san("stage.changed") == "stage.changed" && san("progress.updated") == "progress.updated"
    && san("tool.started") == "tool.started" && san("tool.finished") == "tool.finished"
  }

  lemma LowerFixes(s: string)
    requires forall i :: 0 <= i < |s| ==> !('A' <= s[i] <= 'Z')
    ensures Business.Lower(s) == s
  {}

  lemma TerminalWords()
    ensures TerminalStatusFor(StatusWord("job.succeeded", None)) == Some(Succeeded)
    ensures TerminalStatusFor(StatusWord("job.failed", None)) == Some(Failed)
  {
    LowerFixes("job.succeeded");
    LowerFixes("job.failed");
    hide Business.Lower;
  }

  lemma GenericWords(eventType: string, current: JobStatus)
    requires eventType in Journal.GENERIC_EVENTS
    ensures TerminalStatusFor(StatusWord(eventType, None)).None?
            && StatusFor(current, StatusWord(eventType, None)) == current
  {
    LowerFixes("stage.changed");
    LowerFixes("progress.updated");
    LowerFixes("tool.started");
    LowerFixes("tool.finished");
    hide Business.Lower;
  }

  // ----- a committed terminal takes effect as committed -----

  /** The control plane still holds the job as the snapshot showed it, and the
      message arrives before the job or the message expires. */
  predicate Undisturbed(book: S.Book, who: S.Identity, state: D.StatePayload, m: S.ClientMessage, t: S.Times) {
    && t.Ordered() && LockedJob(book, who, state.jobId).Some?
    && var job := book.jobs[state.jobId];
       && job.status == state.status && job.attempt == state.currentAttempt
       && job.expiresAt > t.after && m.expiresAt > t.after && job.revision < MAX_INT32
  }

  /** The proposal was admitted under this snapshot. */
  predicate Admitted(p: J.Proposal, v: J.Intent, state: D.StatePayload, command: Option<Authority.Command>) {
    && p.binding.owner == v.owner && state.jobId == v.owner.job
    && Authority.StateEligible(state, v, p.binding.operation, command) && J.ProposalStatus(p).Some?
  }

  /** A book in which the job has ended as `status`. */
  predicate Ended(before: S.Book, r: Verdict, c: S.Connector, id: Id, status: JobStatus)
    requires id in before.jobs
  {
    && r.Applied? && r.connector == c && !r.withdrawn
    && id in r.book.jobs && r.book.jobs[id].status == status
    && r.book.jobs[id].revision == before.jobs[id].revision + 1 && r.book.jobs[id].terminalAt.Some?
  }

  lemma EventLands(book: S.Book, c: S.Connector, m: S.ClientMessage, e: S.JobEvent, t: S.Times, coordination: bool,
                   status: JobStatus)
    requires m.body.Event? && e.ClientEvent? && m.body.eventJob in book.jobs && t.Ordered()
    requires TerminalStatusFor(StatusWord(e.eventType, e.status)) == Some(status)
    requires var job := book.jobs[m.body.eventJob];
             && Claimed(job.status) && CanTransition(job.status, status) && Terminal(status)
             && job.expiresAt > t.after && m.expiresAt > t.after && job.revision < MAX_INT32
    ensures Ended(book, EventOnJob(book, c, m, book.jobs[m.body.eventJob], e, t, coordination), c, m.body.eventJob,
                  status)
  {
    hide StatusWord, TerminalStatusFor;
  }

  lemma CancelLands(book: S.Book, c: S.Connector, who: S.Identity, m: S.ClientMessage, t: S.Times, coordination: bool)
    requires m.body.CancelledReport? && LockedJob(book, who, m.body.cancelledJob).Some? && t.Ordered()
    requires var job := book.jobs[m.body.cancelledJob];
             && job.status.Cancelling? && job.attempt == m.body.cancelledAttempt
             && job.expiresAt > t.after && m.expiresAt > t.after && job.revision < MAX_INT32
    ensures Ended(book, CancelledVerdict(book, c, who, m, t, coordination), c, m.body.cancelledJob, Cancelled)
  {}

  /** The event type of a terminal event names its status. */
  lemma EventNamesStatus(p: J.Proposal)
    requires J.ProposalStatus(p).Some?
    ensures p.payload.JobEvent? || p.payload.JobCancelled?
    ensures p.payload.job == p.binding.owner.job && p.payload.attempt == p.binding.owner.attempt
    ensures p.payload.JobEvent? ==>
              && EventStatus(p.payload.detail) == None
              && (|| (p.payload.eventType == "job.succeeded" && J.ProposalStatus(p) == Some(Succeeded))
                  || (p.payload.eventType == "job.failed" && J.ProposalStatus(p) == Some(Failed)))
    ensures p.payload.JobCancelled? ==> J.ProposalStatus(p) == Some(Cancelled) && p.binding.operation.Cancel?
  {}

  /** The observed status allows the proposal's status next. */
  lemma EligibleMayEnd(p: J.Proposal, v: J.Intent, state: D.StatePayload, command: Option<Authority.Command>)
    requires Admitted(p, v, state, command)
    ensures Claimed(state.status) && CanTransition(state.status, J.ProposalStatus(p).value)
            && Terminal(J.ProposalStatus(p).value)
    ensures p.payload.JobCancelled? ==> state.status.Cancelling?
    ensures state.currentAttempt == p.binding.owner.attempt
  {
    EventNamesStatus(p);
  }

  /** A terminal committed under an eligible snapshot ends the job with exactly
      the committed status, if it arrives while the job is as observed. */
  lemma TerminalVerdict(san: string -> string, book: S.Book, c: S.Connector, who: S.Identity, m: S.ClientMessage,
                        t: S.Times,
                        durable: bool, coordination: bool, uuid: nat -> Id,
                        p: J.Proposal, v: J.Intent, state: D.StatePayload, command: Option<Authority.Command>)
    requires KeepsEventTypes(san) && Admitted(p, v, state, command) && Undisturbed(book, who, state, m, t)
    requires (p.payload.JobEvent? || p.payload.JobCancelled?) && m.body == OnServer(p.payload)
    ensures Ended(book, MessageVerdict(san, book, c, who, m, t, durable, coordination, uuid), c, state.jobId,
                  J.ProposalStatus(p).value)
  {
    EventNamesStatus(p);
    EligibleMayEnd(p, v, state, command);
    TerminalWords();
    hide J.ProposalStatus, StatusWord, TerminalStatusFor, EventOnJob, CancelledVerdict, Authority.StateEligible;
    hide CanTransition, Claimed, Terminal, Ended;
    if p.payload.JobEvent? {
      EventLands(book, c, m, S.ClientEvent(p.payload.eventType, None), t, coordination, J.ProposalStatus(p).value);
    } else {
      CancelLands(book, c, who, m, t, coordination);
    }
  }

  /** The same through the whole admission of a numbered message: the transaction
      commits, and the job it leaves has exactly the committed status. */
  lemma TerminalAgreement(san: string -> string, db: S.Db, who: S.Identity, c: S.Connector, m: S.ClientMessage,
                          t: S.Times, uuid: nat -> Id,
                          p: J.Proposal, v: J.Intent, state: D.StatePayload, command: Option<Authority.Command>)
    requires KeepsEventTypes(san) && Admitted(p, v, state, command) && Undisturbed(db.book, who, state, m, t)
    requires (p.payload.JobEvent? || p.payload.JobCancelled?) && m.body == OnServer(p.payload)
    requires m.sequence == c.lastClient + 1 <= MAX_SAFE && c.lastServer + 1 <= MAX_SAFE
             && (c.durable ==> m.expiresAt <= t.now + S.MESSAGE_TTL_MS)
    ensures var r := AcceptNew(san, db, who, c, m, t, uuid);
            && r.Committed? && state.jobId in r.db.book.jobs
            && r.db.book.jobs[state.jobId].status == J.ProposalStatus(p).value
            && r.reply.response == Some(S.Delivered(c.lastServer + 1, S.AckOf(m.sequence)))
  {
    hide MessageVerdict, J.ProposalStatus, KeepsEventTypes, Admitted, LockedJob, AcceptNew, Coordination;
    TerminalVerdict(san, db.book, c, who, m, t, c.durable, Coordination(c, m.body), uuid, p, v, state, command);
    AppliedIsCommitted(san, db, who, c, m, t, uuid);
  }

  /** An applied event or cancellation report in sequence commits with one
      acknowledgement. */
  lemma AppliedIsCommitted(san: string -> string, db: S.Db, who: S.Identity, c: S.Connector, m: S.ClientMessage,
                           t: S.Times, uuid: nat -> Id)
    requires m.body.Event? || m.body.CancelledReport?
    requires m.sequence == c.lastClient + 1 <= MAX_SAFE && c.lastServer + 1 <= MAX_SAFE
    requires m.expiresAt > t.now && (c.durable ==> m.expiresAt <= t.now + S.MESSAGE_TTL_MS)
    requires var r := MessageVerdict(san, db.book, c, who, m, t, c.durable, Coordination(c, m.body), uuid);
             r.Applied? && r.connector == c && !r.withdrawn
    ensures var r := AcceptNew(san, db, who, c, m, t, uuid);
            && r.Committed?
            && r.db.book == MessageVerdict(san, db.book, c, who, m, t, c.durable, Coordination(c, m.body), uuid).book
            && r.reply.response == Some(S.Delivered(c.lastServer + 1, S.AckOf(m.sequence)))
  {
    hide MessageVerdict, Receipt;
    var verdict := MessageVerdict(san, db.book, c, who, m, t, c.durable, Coordination(c, m.body), uuid);
    var s := Settle(verdict, c.durable, Coordination(c, m.body));
    assert s == Effect(verdict.book, c, false);
    var a := Admit(who.connector, c, db.book, m, c.durable, Coordination(c, m.body), s, t, uuid);
    assert a.reply == Reply(Some(S.AckOf(m.sequence)), false) && a.connector.lastServer == c.lastServer
           && a.book == verdict.book;
    hide Admit, Settle;
  }

  // ----- from the capability to the job -----

  /** A commit under an issued capability was admitted by its snapshot: the
      journal's own checks and the issuer's are together what the control plane
      needs. */
  lemma CommitIsAdmitted(v: J.Intent, command: Option<Authority.Command>, x: Authority.Exchange, alive: bool,
                         now: D.Clock,
                         tables: J.Tables, p: J.Proposal, e: Journal.OutInput)
    requires Authority.Issue(v, p.binding, command, x, alive, now).Some?
    requires Journal.Commit(tables, p, x.state, true, e).Done?
             && Journal.Commit(tables, p, x.state, true, e).value.Committed?
    ensures var r := Journal.Commit(tables, p, x.state, true, e).value.winner;
            && r.Local? && Admitted(p, r.predecessor, x.state, command) && J.ProposalStatus(p) == Some(r.status)
            && r.payload == p.payload && r.correlation == p.correlation
            && e.payload.body == p.payload && (p.payload.JobEvent? || p.payload.JobCancelled?)
  {
    hide J.ProposalStatus, Authority.Issue, Journal.Commit, Authority.Eligible;
    PayloadIsTerminal(p);
    IssuedMay(v, p.binding, command, x, alive, now);
    CommitFacts(tables, p, x.state, e);
  }

  lemma IssuedMay(v: J.Intent, b: J.Binding, command: Option<Authority.Command>, x: Authority.Exchange, alive: bool,
                  now: D.Clock)
    requires Authority.Issue(v, b, command, x, alive, now).Some?
    ensures Authority.MayIssue(v, b, command, x)
  {
    hide Authority.MayIssue, Authority.Current, D.AdmitTiming, Conservative.CancellationDeadline;
  }

  /** What the journal has checked when it commits a new terminal record. */
  lemma CommitFacts(tables: J.Tables, p: J.Proposal, state: D.StatePayload, e: Journal.OutInput)
    requires Journal.Commit(tables, p, state, true, e).Done?
             && Journal.Commit(tables, p, state, true, e).value.Committed?
    ensures var r := Journal.Commit(tables, p, state, true, e).value.winner;
            && r.Local? && r.predecessor.owner == p.binding.owner && J.ProposalStatus(p) == Some(r.status)
            && state.currentAttempt == p.binding.owner.attempt
            && (r.predecessor.mode.Some? ==> r.predecessor.mode == Some(state.mode))
            && r.payload == p.payload && r.correlation == p.correlation && e.payload.body == p.payload
  {
    hide J.ProposalStatus, J.RecordOk, Journal.Readable, J.OperationFits, J.Parses, Journal.Above, Journal.IdUsed;
    hide Journal.AddTerminal, Journal.AddOutbound;
  }

  lemma PayloadIsTerminal(p: J.Proposal)
    ensures J.ProposalStatus(p).Some? ==>
            (p.payload.JobEvent? || p.payload.JobCancelled?) && !p.binding.operation.ReconcileOp?
  {}

  /** End to end. A capability is issued from one state exchange; every check of
      the commit passes; the journal commits a terminal record. Then each check
      came more than a second before the true end of the job, and when the
      message arrives in sequence while the job is as the snapshot showed it, the
      control plane ends the job with exactly the status of the record. */
  lemma EndToEnd(v: J.Intent, command: Option<Authority.Command>, x: Authority.Exchange, alive: bool, now: D.Clock,
                 stamp: real,
                 calls: seq<Authority.Call>, i: nat, tables: J.Tables, p: J.Proposal, e: Journal.OutInput,
                 san: string -> string, db: S.Db, who: S.Identity, c: S.Connector, m: S.ClientMessage, t: S.Times,
                 uuid: nat -> Id)
    requires Authority.Issue(v, p.binding, command, x, alive, now).Some?
             && Conservative.StampedBetween(x.sent, x.received, stamp)
    requires i < |calls| && Authority.Succeeds(Authority.Issue(v, p.binding, command, x, alive, now).value, calls, i)
    requires Journal.Commit(tables, p, x.state, true, e).Done?
             && Journal.Commit(tables, p, x.state, true, e).value.Committed?
    requires p.payload.JobEvent? || p.payload.JobCancelled?
    requires KeepsEventTypes(san) && Undisturbed(db.book, who, x.state, m, t) && m.body == OnServer(p.payload)
    requires m.sequence == c.lastClient + 1 <= MAX_SAFE && c.lastServer + 1 <= MAX_SAFE
             && (c.durable ==> m.expiresAt <= t.now + S.MESSAGE_TTL_MS)
    ensures D.SchemaOk(x.state) && D.FiniteClock(calls[i].now)
    ensures Binary64.Value(calls[i].now.monotonic) + 1000.0
            < Conservative.TrueInstant(x.state, stamp, x.state.expiresAt)
    ensures var r := AcceptNew(san, db, who, c, m, t, uuid);
            && r.Committed? && x.state.jobId in r.db.book.jobs
            && r.db.book.jobs[x.state.jobId].status == Journal.Commit(tables, p, x.state, true, e).value.winner.status
  {
    hide Authority.Issue, Authority.Succeeds, Journal.Commit, AcceptNew, KeepsEventTypes, Undisturbed, Admitted;
    hide D.SchemaOk, Binary64.Value, Conservative.TrueInstant, D.Timestamp;
    CommitIsAdmitted(v, command, x, alive, now, tables, p, e);
    PayloadIsTerminal(p);
    Authority.AuthorityIsConservative(v, p.binding, command, x, alive, now, calls, i, stamp);
    var r := Journal.Commit(tables, p, x.state, true, e).value.winner;
    TerminalAgreement(san, db, who, c, m, t, uuid, p, r.predecessor, x.state, command);
  }

  // ----- generic events change no status -----

  /** Whatever enqueueEvent stores for an owned attempt and the schema accepts is
      one of the four generic events, with no status of its own. */
  lemma JournalAdmitsOnlyGeneric(t: J.Tables, e: Journal.OutInput)
    requires Journal.Readable(t) && Journal.EnqueueEvent(t, e).Done? && J.Parses(e.payload)
    requires var b := e.payload.body; (b.JobEvent? || b.JobCancelled?) && (b.job, b.attempt) in t.intents
    ensures !Journal.ForbiddenGeneric(e.payload.body)
  {
    hide Journal.Readable;
  }

  lemma GenericOnJob(book: S.Book, c: S.Connector, m: S.ClientMessage, job: S.Job, e: S.JobEvent, t: S.Times,
                     coordination: bool)
    requires m.body.Event? && e.ClientEvent? && m.body.eventJob in book.jobs && book.jobs[m.body.eventJob] == job
    requires TerminalStatusFor(StatusWord(e.eventType, e.status)).None?
             && StatusFor(job.status, StatusWord(e.eventType, e.status)) == job.status
    ensures var r := EventOnJob(book, c, m, job, e, t, coordination);
            r.Applied? ==> SameStatuses(book, r.book)
  {
    hide StatusWord, TerminalStatusFor, StatusFor;
  }

  /** Every job keeps its status. */
  predicate SameStatuses(before: S.Book, after: S.Book) {
    forall id :: id in before.jobs ==> id in after.jobs && after.jobs[id].status == before.jobs[id].status
  }

  lemma GenericVerdict(san: string -> string, book: S.Book, c: S.Connector, who: S.Identity, m: S.ClientMessage,
                       t: S.Times,
                       coordination: bool, b: J.Body)
    requires KeepsEventTypes(san) && b.JobEvent? && !Journal.ForbiddenGeneric(b) && m.body == OnServer(b)
    ensures var r := EventVerdict(san, book, c, who, m, t, coordination); r.Applied? ==> SameStatuses(book, r.book)
  {
    hide EventOnJob;
    var locked := LockedJob(book, who, b.job);
    if locked.Some? {
      GenericWords(b.eventType, locked.value.status);
      assert san(b.eventType) == b.eventType;
      hide KeepsEventTypes, StatusWord, StatusFor, TerminalStatusFor;
      GenericOnJob(book, c, m, locked.value, S.ClientEvent(b.eventType, None), t, coordination);
    }
  }

  /** No generic event the journal admits for an owned attempt can change the
      status of any job at the control plane. */
  lemma GenericNeverChangesStatus(san: string -> string, book: S.Book, c: S.Connector, who: S.Identity,
                                  m: S.ClientMessage, t: S.Times,
                                  durable: bool, coordination: bool, uuid: nat -> Id, tables: J.Tables,
                                  e: Journal.OutInput)
    requires KeepsEventTypes(san) && Journal.Readable(tables) && Journal.EnqueueEvent(tables, e).Done?
             && J.Parses(e.payload)
    requires var b := e.payload.body;
             (b.JobEvent? || b.JobCancelled?) && (b.job, b.attempt) in tables.intents && m.body == OnServer(b)
    ensures var r := MessageVerdict(san, book, c, who, m, t, durable, coordination, uuid);
            r.Applied? ==> SameStatuses(book, r.book)
  {
    hide Journal.Readable, Journal.EnqueueEvent, EventVerdict, KeepsEventTypes, J.Parses;
    JournalAdmitsOnlyGeneric(tables, e);
    GenericVerdict(san, book, c, who, m, t, coordination, e.payload.body);
  }

  // ----- hello and the frontier -----

  lemma AcknowledgesUpTo(c: S.Connector, jobs: map<Id, S.Job>, m: S.ClientMessage, durable: bool, coordination: bool,
                         t: S.Times, uuid: nat -> Id, s: nat)
    requires m.body.Hello? && s in c.server
    ensures var d := Advance(c, jobs, m, durable, coordination, t, uuid);
            s in d.server && (d.server[s].acknowledged && !c.server[s].acknowledged ==> s <= m.body.lastServer)
  {}

  /** Replaying a receipt marks no row as delivered. */
  lemma ReplayMarksNone(db: S.Db, cid: Id, c: S.Connector, m: S.ClientMessage, row: S.ClientRow, t: S.Times,
                        uuid: nat -> Id, s: nat)
    requires AcceptDuplicate(db, cid, c, m, row, t, uuid).Committed? && s in c.server
    ensures var o := AcceptDuplicate(db, cid, c, m, row, t, uuid);
            && cid in o.db.connectors && s in o.db.connectors[cid].server
            && o.db.connectors[cid].server[s].acknowledged == c.server[s].acknowledged
  {
    var first := FindOriginal(cid, c, m, row, false);
    RefreshMarksNone(cid, c, m, row, false, t, uuid, s);
    var c1 := RefreshIfNeeded(c, first, t, uuid);
    RefreshMarksNone(cid, c1, m, row, true, t, uuid, s);
    hide FindOriginal, RefreshIfNeeded, IsExactDuplicate;
  }

  lemma RefreshMarksNone(cid: Id, c: S.Connector, m: S.ClientMessage, row: S.ClientRow, receipt: bool, t: S.Times,
                         uuid: nat -> Id, s: nat)
    requires s in c.server
    ensures var f := FindOriginal(cid, c, m, row, receipt);
            && (f.Found? ==> f.sequence in c.server)
            && var c' := RefreshIfNeeded(c, f, t, uuid);
               s in c'.server && c'.server[s].acknowledged == c.server[s].acknowledged
  {
    hide Answers, S.PayloadParses;
  }

  lemma NewHelloMarks(san: string -> string, db: S.Db, who: S.Identity, c: S.Connector, m: S.ClientMessage, t: S.Times,
                      uuid: nat -> Id, s: nat)
    requires m.body.Hello? && Receipts.Dense(c)
    requires AcceptNew(san, db, who, c, m, t, uuid).Committed? && s in c.server && !c.server[s].acknowledged
    ensures var r := AcceptNew(san, db, who, c, m, t, uuid);
            && who.connector in r.db.connectors && s in r.db.connectors[who.connector].server
            && (r.db.connectors[who.connector].server[s].acknowledged ==> s <= m.body.lastServer)
  {
    var durable, coordination := Durable(c, m.body), Coordination(c, m.body);
    AcknowledgesUpTo(c, db.book.jobs, m, durable, coordination, t, uuid, s);
    hide Advance, HelloMatches;
  }

  /** A hello, new or repeated, marks nothing past the sequence it reports. */
  lemma HelloMarks(san: string -> string, db: S.Db, who: S.Identity, m: S.ClientMessage, t: S.Times, uuid: nat -> Id,
                   s: nat)
    requires m.body.Hello? && Delivery.ConnectorsOk(db) && who.connector in db.connectors
    requires AcceptMessage(san, db, who, m, t, uuid).Committed?
    requires var c := db.connectors[who.connector]; s in c.server && !c.server[s].acknowledged
    ensures var r := AcceptMessage(san, db, who, m, t, uuid);
            && who.connector in r.db.connectors && s in r.db.connectors[who.connector].server
            && (r.db.connectors[who.connector].server[s].acknowledged ==> s <= m.body.lastServer)
  {
    hide AcceptNew, AcceptDuplicate;
    var c := db.connectors[who.connector];
    assert Receipts.ConnectorOk(who.connector, c);
    if m.id in c.client {
      ReplayMarksNone(db, who.connector, c, m, c.client[m.id], t, uuid, s);
    } else {
      NewHelloMarks(san, db, who, c, m, t, uuid, s);
    }
  }

  /** Over both ends. The connector takes its contiguous frontier at some moment
      of any run of its journal and says hello with it; the control plane, at any
      moment of any run of its own, accepts the hello while the journal has run
      on. Every row that this marks as delivered is stored in the journal. */
  lemma HelloAcknowledgesOnlyStored(
      steps: seq<JournalRuns.Step>, later: seq<JournalRuns.Step>,
      san: string -> string, initial: S.Db, served: seq<ServerRuns.Step>, db: S.Db,
      who: S.Identity, m: S.ClientMessage, t: S.Times, uuid: nat -> Id, s: nat)
    requires m.body.Hello? && Inbound.IsFrontier(JournalRuns.Run(J.Empty, steps).inbound.Keys, m.body.lastServer)
    requires ServerRuns.Initial(initial) && db == ServerRuns.Run(san, initial, served) && who.connector in db.connectors
    requires AcceptMessage(san, db, who, m, t, uuid).Committed?
    requires s in db.connectors[who.connector].server && !db.connectors[who.connector].server[s].acknowledged
    ensures var r := AcceptMessage(san, db, who, m, t, uuid);
            && who.connector in r.db.connectors && s in r.db.connectors[who.connector].server
            && (r.db.connectors[who.connector].server[s].acknowledged ==>
                  s in JournalRuns.Run(JournalRuns.Run(J.Empty, steps), later).inbound)
  {
    Delivery.InitialOk(initial);
    Delivery.ConnectorsRun(san, initial, served);
    hide ServerRuns.Run, JournalRuns.Run, AcceptMessage, Delivery.ConnectorsOk;
    HelloMarks(san, db, who, m, t, uuid, s);
    JournalTheorems.EmptyInv();
    JournalTheorems.RunsOnlyGrow(J.Empty, steps);
    JournalTheorems.RunsOnlyGrow(JournalRuns.Run(J.Empty, steps), later);
    hide JournalRuns.EventsOk;
    RowsStartAtOne(db, who.connector, s);
  }

  lemma RowsStartAtOne(db: S.Db, cid: Id, s: nat)
    requires Delivery.ConnectorsOk(db) && cid in db.connectors && s in db.connectors[cid].server
    ensures s >= 1
  {
    assert Receipts.ConnectorOk(cid, db.connectors[cid]);
  }
}
