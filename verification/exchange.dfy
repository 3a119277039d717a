/** Messages that one end builds from what the other told it: a claim from an
    offer, and a terminal report from a state answer. */
module Exchange {
  import opened Common
  import opened JobState
  import S = ServerTypes
  import opened Business
  import opened Accept
  import opened Dispatch
  import opened Effects
  import opened Replies
  import ServerRuns
  import D = Deadlines
  import J = JournalTypes
  import Journal
  import Authority
  import Agreement
  import Conservative
  import Binary64

  // ----- from an offer to a claim -----

  /** The connector claims what it was offered, and the job still stands as the
      dispatch left it, at every time the claim is checked. */
  predicate ClaimsTheOffer(m: S.ClientMessage, offer: S.ServerBody, job: S.Job, t: S.Times) {
    && offer.Offer? && m.body == S.Claim(offer.offerJob, offer.offerAttempt, offer.offerLease)
    && t.Ordered() && job.leaseExpiresAt.Some? && job.leaseExpiresAt.value > t.after && job.expiresAt > t.after
    && m.expiresAt > t.after && job.revision < MAX_INT32 && job.attempt < MAX_INT32
  }

  /** An offer can be claimed: whoever receives it and claims it in sequence, while
      the job is as the dispatch left it and its lease is live, gets the job. */
  lemma OfferIsClaimable(san: string -> string, db: S.Db, who: S.Identity, choice: Id, t: S.Times, lease: Id,
                         correlation: Id,
                         uuid: nat -> Id, later: S.Db, c: S.Connector, m: S.ClientMessage, t': S.Times,
                         uuid': nat -> Id)
    requires MayOffer(db, who, choice, t)
    requires var o := DispatchNext(db, who, choice, t, lease, correlation, uuid);
             && o.Committed? && o.reply.Some? && choice in o.db.book.jobs && choice in later.book.jobs
             && later.book.jobs[choice] == o.db.book.jobs[choice]
             && ClaimsTheOffer(m, o.reply.value.body, later.book.jobs[choice], t')
    requires Presentable(who, c, m, t'.now) && c.lastServer + 2 <= MAX_SAFE
    ensures var r := AcceptNew(san, later, who, c, m, t', uuid');
            && r.Committed? && choice in r.db.book.jobs
            && r.reply.response == Some(S.Delivered(c.lastServer + 1, S.AckOf(m.sequence)))
            && var job := r.db.book.jobs[choice];
               && job.status == Running && job.attempt == db.book.jobs[choice].attempt + 1
               && job.connector == Some(who.connector) && job.lease == Some(lease)
  {
    hide MayOffer, DispatchNext, AcceptNew, MessageVerdict, ClaimVerdict, Settle, Presentable;
    DispatchWrites(db, who, choice, t, lease, correlation, uuid);
    MayOfferOwned(db, who, choice, t);
    var durable, coordination := Durable(c, m.body), Coordination(c, m.body);
    assert ClaimFits(later.book, who, m, t', durable);
    ClaimExactly(later.book, c, who, m, t', durable, coordination, uuid');
    ClaimIsVerdict(san, later.book, c, who, m, t', durable, coordination, uuid');
    TakenUp(san, later, who, c, m, t', uuid');
    DisposedBy(MessageVerdict(san, later.book, c, who, m, t', durable, coordination, uuid'), durable, coordination);
    AnswersByDisposition(san, later, who, c, m, t', uuid');
  }

  lemma MayOfferOwned(db: S.Db, who: S.Identity, choice: Id, t: S.Times)
    requires MayOffer(db, who, choice, t)
    ensures choice in db.book.jobs && db.book.jobs[choice].owner == who.owner && who.connector in db.connectors
  {
    hide FreeSlot;
  }

  lemma ClaimIsVerdict(san: string -> string, book: S.Book, c: S.Connector, who: S.Identity, m: S.ClientMessage,
                       t: S.Times,
                       durable: bool, coordination: bool, uuid: nat -> Id)
    requires m.body.Claim?
    ensures MessageVerdict(san, book, c, who, m, t, durable, coordination, uuid)
         == ClaimVerdict(book, c, who, m, t, durable, coordination, uuid)
  {
    hide ClaimVerdict;
  }

  // ----- from a state answer to a terminal report -----

  predicate ReadTime(text: string, ms: int) { D.Timestamp(text) && D.MsOf(text) == ms as real }

  /** The payload is what the connector reads from this answer. */
  predicate ReadFrom(p: D.StatePayload, b: S.ServerBody) {
    && b.State? && p.jobId == b.job && p.repositoryId == b.repository && p.mode == b.mode
    && p.requestedAttempt == b.requestedAttempt && p.currentAttempt == b.currentAttempt && p.status == b.status
    && p.jobRevision == b.revision && p.cancelRevision == b.cancelRevision && p.leaseId == b.lease
    && ReadTime(p.expiresAt, b.expiresAt) && ReadTime(p.observedAt, b.observedAt)
    && ReadTime(p.stateValidUntil, b.validUntil)
    && p.leaseExpiresAt.Some? == b.leaseExpiresAt.Some?
    && (p.leaseExpiresAt.Some? ==> ReadTime(p.leaseExpiresAt.value, b.leaseExpiresAt.value))
  }

  /** A snapshot is true of the job until the job is written again: a message that
      arrives before the expiry the snapshot showed finds the job as the snapshot
      showed it. */
  lemma SnapshotStaysTrue(san: string -> string, db: S.Db, who: S.Identity, c: S.Connector, sync: S.ClientMessage,
                          t: S.Times, uuid: nat -> Id, p: D.StatePayload, later: S.Db, m: S.ClientMessage, t': S.Times)
    requires sync.body.Sync? && AcceptNew(san, db, who, c, sync, t, uuid).Committed?
    requires var o := AcceptNew(san, db, who, c, sync, t, uuid);
             |o.reply.replay| == 1 && ReadFrom(p, o.reply.replay[0].body)
    requires sync.body.syncJob in db.book.jobs && sync.body.syncJob in later.book.jobs
    requires later.book.jobs[sync.body.syncJob] == db.book.jobs[sync.body.syncJob]
    requires t'.Ordered() && D.MsOf(p.expiresAt) > t'.after as real && m.expiresAt > t'.after
             && p.jobRevision < MAX_INT32
    ensures p.jobId == sync.body.syncJob && Agreement.Undisturbed(later.book, who, p, m, t')
  {
    hide AcceptNew, D.MsOf, D.Timestamp;
    SyncTellsTheJob(san, db, who, c, sync, t, uuid);
  }

  /** End to end over the wire. The state the capability was issued from is read from
      the control plane's own answer to a job.sync; the journal commits; and if the
      job has not been written since, the message ends it with exactly the status of
      the record. */
  lemma EndToEndFromSync(
      san: string -> string, db: S.Db, who: S.Identity, c: S.Connector, sync: S.ClientMessage, t: S.Times,
      uuid: nat -> Id,
      v: J.Intent, command: Option<Authority.Command>, x: Authority.Exchange, alive: bool, now: D.Clock, stamp: real,
      calls: seq<Authority.Call>, i: nat, tables: J.Tables, p: J.Proposal, e: Journal.OutInput,
      later: S.Db, c': S.Connector, m: S.ClientMessage, t': S.Times, uuid': nat -> Id)
    requires sync.body.Sync? && AcceptNew(san, db, who, c, sync, t, uuid).Committed?
    requires var o := AcceptNew(san, db, who, c, sync, t, uuid);
             |o.reply.replay| == 1 && ReadFrom(x.state, o.reply.replay[0].body)
    requires sync.body.syncJob in db.book.jobs && sync.body.syncJob in later.book.jobs
    requires later.book.jobs[sync.body.syncJob] == db.book.jobs[sync.body.syncJob]
    requires t'.Ordered() && D.MsOf(x.state.expiresAt) > t'.after as real && x.state.jobRevision < MAX_INT32
    requires Authority.Issue(v, p.binding, command, x, alive, now).Some?
    requires Conservative.StampedBetween(x.sent, x.received, stamp)
    requires i < |calls| && Authority.Succeeds(Authority.Issue(v, p.binding, command, x, alive, now).value, calls, i)
    requires Journal.Commit(tables, p, x.state, true, e).Done?
             && Journal.Commit(tables, p, x.state, true, e).value.Committed?
    requires p.payload.JobEvent? || p.payload.JobCancelled?
    requires Agreement.KeepsEventTypes(san) && m.body == Agreement.OnServer(p.payload) && m.expiresAt > t'.after
    requires m.sequence == c'.lastClient + 1 <= MAX_SAFE && c'.lastServer + 1 <= MAX_SAFE
    requires c'.durable ==> m.expiresAt <= t'.now + S.MESSAGE_TTL_MS
    ensures var r := AcceptNew(san, later, who, c', m, t', uuid');
            && r.Committed? && sync.body.syncJob in r.db.book.jobs
            && r.db.book.jobs[sync.body.syncJob].status
               == Journal.Commit(tables, p, x.state, true, e).value.winner.status
  {
    hide AcceptNew, Authority.Issue, Authority.Succeeds, Journal.Commit, Conservative.StampedBetween, D.MsOf;
    hide Agreement.KeepsEventTypes, Agreement.Undisturbed;
    SnapshotStaysTrue(san, db, who, c, sync, t, uuid, x.state, later, m, t');
    Agreement.EndToEnd(v, command, x, alive, now, stamp, calls, i, tables, p, e, san, later, who, c', m, t', uuid');
  }
}
