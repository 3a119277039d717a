/** Message ids of the outbox over whole runs: every row that a transaction writes
    or replaces carries an id drawn for it, and ids stay unique. */
module Identities {
  import opened Common
  import opened ServerTypes
  import opened OutboxRows
  import opened Business
  import opened Accept
  import opened Dispatch
  import opened Repository
  import opened ServerRuns
  import opened Commands

  /** A row is the one that stood there, but for its delivery mark, or it carries
      the id drawn for its sequence. */
  predicate RowsDrawn(a: map<nat, ServerRow>, b: map<nat, ServerRow>, uuid: nat -> Id) {
    forall s :: s in b ==>
      (s in a && b[s] == a[s].(acknowledged := b[s].acknowledged)) || b[s].messageId == uuid(s)
  }

  lemma DrawnTransitive(a: map<nat, ServerRow>, b: map<nat, ServerRow>, c: map<nat, ServerRow>, uuid: nat -> Id)
    requires RowsDrawn(a, b, uuid) && RowsDrawn(b, c, uuid)
    ensures RowsDrawn(a, c, uuid)
  {}

  lemma SameRowsDrawn(a: map<nat, ServerRow>, uuid: nat -> Id)
    ensures RowsDrawn(a, a, uuid)
  {}

  lemma EnqueueDraws(c: Connector, body: ServerBody, correlation: Id, expiresAt: int, now: int, uuid: nat -> Id)
    ensures var c' := Enqueue(c, body, correlation, expiresAt, now, uuid);
            RowsDrawn(c.server, c'.server, uuid) && c'.client == c.client
  {}

  lemma ClaimDraws(book: Book, c: Connector, who: Identity, m: ClientMessage, t: Times, durable: bool,
                   coordination: bool, uuid: nat -> Id)
    requires m.body.Claim?
    ensures var v := ClaimVerdict(book, c, who, m, t, durable, coordination, uuid);
            v.Applied? ==> RowsDrawn(c.server, v.connector.server, uuid) && v.connector.client == c.client
  {
    hide HasOriginalOffer, HasExpiredOffer, LockedJob, WriteJob;
  }

  lemma AckDraws(book: Book, c: Connector, m: ClientMessage, t: Times, uuid: nat -> Id)
    requires m.body.AckReport? && m.body.ackSequence in c.server
    ensures var v := AckVerdict(book, c, m, t);
            v.Applied? ==> RowsDrawn(c.server, v.connector.server, uuid) && v.connector.client == c.client
  {
    hide Resumes, WriteJob;
  }

  lemma OthersDrawNone(san: string -> string, book: Book, c: Connector, who: Identity, m: ClientMessage, t: Times,
                       durable: bool, coordination: bool, uuid: nat -> Id)
    requires !m.body.Claim? && !m.body.AckReport?
    ensures var v := MessageVerdict(san, book, c, who, m, t, durable, coordination, uuid);
            v.Applied? ==> v.connector == c && (m.body.Sync? ==> m.body.syncJob in book.jobs)
  {
    hide ClaimVerdict, AckVerdict, HasOriginalOffer, TerminalStatusFor, StatusFor, StatusWord, WriteJob, AppendEvent;
  }

  lemma VerdictDraws(san: string -> string, book: Book, c: Connector, who: Identity, m: ClientMessage, t: Times,
                     durable: bool, coordination: bool, uuid: nat -> Id)
    requires m.body.AckReport? ==> m.body.ackSequence in c.server
    ensures var v := MessageVerdict(san, book, c, who, m, t, durable, coordination, uuid);
            v.Applied? ==>
              && RowsDrawn(c.server, v.connector.server, uuid) && v.connector.client == c.client
              && (m.body.Sync? ==> m.body.syncJob in book.jobs)
  {
    hide ClaimVerdict, AckVerdict, EventVerdict, ApprovalVerdict, CancelledVerdict, RowsDrawn;
    if m.body.Claim? {
      ClaimDraws(book, c, who, m, t, durable, coordination, uuid);
    } else if m.body.AckReport? {
      AckDraws(book, c, m, t, uuid);
    } else {
      OthersDrawNone(san, book, c, who, m, t, durable, coordination, uuid);
      SameRowsDrawn(c.server, uuid);
    }
  }

  lemma AdvanceDraws(c: Connector, jobs: map<Id, Job>, m: ClientMessage, durable: bool, coordination: bool, t: Times,
                     uuid: nat -> Id)
    ensures var c' := Advance(c, jobs, m, durable, coordination, t, uuid);
            RowsDrawn(c.server, c'.server, uuid) && c'.client == c.client
  {
    hide Candidates;
  }

  lemma ReceiptDraws(c: Connector, m: ClientMessage, durable: bool, coordination: bool, r: Reply, t: Times,
                     uuid: nat -> Id)
    ensures var c' := Receipt(c, m, durable, coordination, r, t, uuid);
            RowsDrawn(c.server, c'.server, uuid) && c'.client.Keys == c.client.Keys + {m.id}
  {
    var c1 := if r.first.Some? then Enqueue(c, r.first.value, m.correlation, t.now + MESSAGE_TTL_MS, t.now, uuid)
              else c;
    if r.first.Some? { EnqueueDraws(c, r.first.value, m.correlation, t.now + MESSAGE_TTL_MS, t.now, uuid); }
    if r.ack { EnqueueDraws(c1, AckOf(m.sequence), m.correlation, t.after + MESSAGE_TTL_MS, t.now, uuid); }
    hide Enqueue;
  }

  /** A new message adds its own id to the receipts, and draws one for every row it writes. */
  lemma NewDraws(san: string -> string, db: Db, who: Identity, c: Connector, m: ClientMessage, t: Times,
                 uuid: nat -> Id)
    ensures var o := AcceptNew(san, db, who, c, m, t, uuid);
            o.Committed? ==>
              && o.db.connectors.Keys == db.connectors.Keys + {who.connector}
              && (forall k :: k in db.connectors && k != who.connector ==> o.db.connectors[k] == db.connectors[k])
              && RowsDrawn(c.server, o.db.connectors[who.connector].server, uuid)
              && o.db.connectors[who.connector].client.Keys == c.client.Keys + {m.id}
  {
    hide Advance, Receipt, MessageVerdict, RowsDrawn, ReplyTo, AdmissionReply;
    var o := AcceptNew(san, db, who, c, m, t, uuid);
    if o.Committed? {
      var durable, coordination := Durable(c, m.body), Coordination(c, m.body);
      VerdictDraws(san, db.book, c, who, m, t, durable, coordination, uuid);
      var v := MessageVerdict(san, db.book, c, who, m, t, durable, coordination, uuid);
      var s := Settle(v, durable, coordination);
      var k := if s.Effect? then s.connector else c;
      SameRowsDrawn(c.server, uuid);
      AdvanceDraws(k, (if s.Effect? then s.book else db.book).jobs, m, durable, coordination, t, uuid);
      var a := Admit(who.connector, c, db.book, m, durable, coordination, s, t, uuid);
      ReceiptDraws(a.connector, m, durable, coordination, a.reply, t, uuid);
      DrawnTransitive(c.server, k.server, a.connector.server, uuid);
      DrawnTransitive(c.server, a.connector.server, o.db.connectors[who.connector].server, uuid);
    }
  }

  lemma RefreshDraws(cid: Id, c: Connector, m: ClientMessage, row: ClientRow, receipt: bool, t: Times, uuid: nat -> Id)
    ensures var f := FindOriginal(cid, c, m, row, receipt);
            && (f.Found? ==> f.sequence in c.server)
            && var c' := RefreshIfNeeded(c, f, t, uuid);
               RowsDrawn(c.server, c'.server, uuid) && c'.client == c.client
  {
    hide MessageParses, Answers;
  }

  /** A repetition adds no id, and draws one for every row it writes back. */
  lemma DuplicateDraws(db: Db, cid: Id, c: Connector, m: ClientMessage, row: ClientRow, t: Times, uuid: nat -> Id)
    ensures var o := AcceptDuplicate(db, cid, c, m, row, t, uuid);
            o.Committed? ==>
              && o.db.connectors.Keys == db.connectors.Keys + {cid}
              && (forall k :: k in db.connectors && k != cid ==> o.db.connectors[k] == db.connectors[k])
              && RowsDrawn(c.server, o.db.connectors[cid].server, uuid) && o.db.connectors[cid].client == c.client
  {
    RefreshDraws(cid, c, m, row, false, t, uuid);
    var c1 := RefreshIfNeeded(c, FindOriginal(cid, c, m, row, false), t, uuid);
    RefreshDraws(cid, c1, m, row, true, t, uuid);
    var c2 := RefreshIfNeeded(c1, FindOriginal(cid, c1, m, row, true), t, uuid);
    DrawnTransitive(c.server, c1.server, c2.server, uuid);
    hide FindOriginal, RefreshIfNeeded, RowsDrawn;
  }

  // ----- every transaction -----

  /** The ids a transaction draws. */
  function DrawOf(step: Step): nat -> Id {
    match step
    case CreateStep(_, _, _, _, _, _) => _ => 0
    case ClaimOfferStep(_, _, _, _, _) => _ => 0
    case AcceptStep(_, _, _, uuid) => uuid
    case DispatchStep(_, _, _, _, _, uuid) => uuid
    case PendingStep(_, _, _, uuid) => uuid
    case FailureStep(_, _, _, _, uuid) => uuid
    case CancelStep(_, _, _, _, _, _, uuid) => uuid
    case DecideStep(_, _, _, uuid) => uuid
  }

  /** A receipt is new only for the message just accepted, whose id no row had. */
  predicate ClientsFrom(c: Connector, c': Connector, step: Step) {
    forall id :: id in c'.client && id !in c.client ==>
      step.AcceptStep? && id == step.m.id && forall s :: s in c.server ==> c.server[s].messageId != id
  }

  predicate Draws(c: Connector, c': Connector, step: Step) {
    RowsDrawn(c.server, c'.server, DrawOf(step)) && ClientsFrom(c, c', step)
  }

  predicate AllDraw(db: Db, db': Db, step: Step) {
    && db'.connectors.Keys == db.connectors.Keys
    && forall cid :: cid in db.connectors ==> Draws(db.connectors[cid], db'.connectors[cid], step)
  }

  lemma AcceptDraws(san: string -> string, db: Db, step: Step)
    requires step.AcceptStep?
    ensures AllDraw(db, Apply(san, db, step), step)
  {
    hide DispatchNext, PendingMessages, ReportFailure, CreateIdempotent, CancelAtomically, ClaimOffer, RecordDecision;
    hide RowsDrawn, AcceptNew, AcceptDuplicate;
    var AcceptStep(who, m, t, uuid) := step;
    assert DrawOf(step) == uuid;
    if !AcceptMessage(san, db, who, m, t, uuid).Committed? {
      hide AcceptMessage, AllDraw;
      ConnectorsSame(db, db, step);
    } else {
      var c := db.connectors[who.connector];
      if m.id in c.client {
        DuplicateDraws(db, who.connector, c, m, c.client[m.id], t, uuid);
      } else {
        NewDraws(san, db, who, c, m, t, uuid);
      }
      OneChanged(db, Apply(san, db, step), step, who.connector);
    }
  }

  lemma OneChanged(db: Db, db': Db, step: Step, cid: Id)
    requires db'.connectors.Keys == db.connectors.Keys && cid in db.connectors
    requires forall k :: k in db.connectors && k != cid ==> db'.connectors[k] == db.connectors[k]
    requires Draws(db.connectors[cid], db'.connectors[cid], step)
    ensures AllDraw(db, db', step)
  {
    hide DrawOf;
  }

  lemma ConnectorsSame(db: Db, db': Db, step: Step)
    requires db'.connectors == db.connectors
    ensures AllDraw(db, db', step)
  {}

  lemma PendingDraws(san: string -> string, db: Db, step: Step)
    requires step.PendingStep?
    ensures AllDraw(db, Apply(san, db, step), step)
  {
    hide AcceptMessage, DispatchNext, ReportFailure, CreateIdempotent, CancelAtomically, ClaimOffer, RecordDecision;
    hide Candidates, Batch;
  }

  lemma DispatchDraws(san: string -> string, db: Db, step: Step)
    requires step.DispatchStep?
    ensures AllDraw(db, Apply(san, db, step), step)
  {
    hide AcceptMessage, PendingMessages, ReportFailure, CreateIdempotent, CancelAtomically, ClaimOffer, RecordDecision;
    hide HasSlot, WriteJob;
  }

  lemma FailureDraws(san: string -> string, db: Db, step: Step)
    requires step.FailureStep?
    ensures AllDraw(db, Apply(san, db, step), step)
  {
    hide AcceptMessage, DispatchNext, PendingMessages, CreateIdempotent, CancelAtomically, ClaimOffer, RecordDecision;
  }

  lemma CancelDraws(san: string -> string, db: Db, step: Step)
    requires step.CancelStep?
    ensures AllDraw(db, Apply(san, db, step), step)
  {
    hide AcceptMessage, DispatchNext, PendingMessages, ReportFailure, CreateIdempotent, ClaimOffer, RecordDecision;
    hide WriteJob;
  }

  lemma DecideDraws(san: string -> string, db: Db, step: Step)
    requires step.DecideStep?
    ensures AllDraw(db, Apply(san, db, step), step)
  {
    hide AcceptMessage, DispatchNext, PendingMessages, ReportFailure, CreateIdempotent, CancelAtomically, ClaimOffer;
    hide AppendEvent;
  }

  /** Whatever a transaction does to a row of the outbox beyond marking it as
      delivered, the row gets the id drawn for it. */
  lemma EveryWriteDrawsAnId(san: string -> string, db: Db, step: Step)
    ensures AllDraw(db, Apply(san, db, step), step)
  {
    hide Apply, AllDraw;
    match step
    case AcceptStep(_, _, _, _) => AcceptDraws(san, db, step);
    case DispatchStep(_, _, _, _, _, _) => DispatchDraws(san, db, step);
    case PendingStep(_, _, _, _) => PendingDraws(san, db, step);
    case FailureStep(_, _, _, _, _) => FailureDraws(san, db, step);
    case CancelStep(_, _, _, _, _, _, _) => CancelDraws(san, db, step);
    case DecideStep(_, _, _, _) => DecideDraws(san, db, step);
    case CreateStep(_, _, _, _, _, _) => KeepsConnectors(san, db, step);
                                         ConnectorsSame(db, Apply(san, db, step), step);
    case ClaimOfferStep(_, _, _, _, _) => KeepsConnectors(san, db, step);
                                          ConnectorsSame(db, Apply(san, db, step), step);
  }

  lemma KeepsConnectors(san: string -> string, db: Db, step: Step)
    requires step.CreateStep? || step.ClaimOfferStep?
    ensures Apply(san, db, step).connectors == db.connectors
  {
    hide CreateIdempotent, ClaimOffer;
    match step
    case CreateStep(key, digest, repository, mode, newId, t) =>
      CreateKeepsConnectors(db, key, digest, repository, mode, newId, t);
    case ClaimOfferStep(job, connector, attempt, lease, t) =>
      ClaimKeepsConnectors(db, job, connector, attempt, lease, t);
  }

  // ----- whole runs -----

  /** No two rows share an id, and none has the id of a client message. */
  predicate Unique(c: Connector) {
    && (forall s, s' :: s in c.server && s' in c.server && s != s' ==>
          c.server[s].messageId != c.server[s'].messageId)
    && (forall s :: s in c.server ==> c.server[s].messageId !in c.client)
  }

  /** What random ids promise: the draws differ from one another and from every id
      the connector has seen. */
  ghost predicate FreshFor(c: Connector, step: Step) {
    && (forall s: nat, s': nat :: s != s' ==> DrawOf(step)(s) != DrawOf(step)(s'))
    && (forall s: nat, q :: q in c.server ==> DrawOf(step)(s) != c.server[q].messageId)
    && (forall s: nat :: DrawOf(step)(s) !in c.client)
    && (step.AcceptStep? ==> forall s: nat :: DrawOf(step)(s) != step.m.id)
  }

  ghost predicate FreshDraws(db: Db, step: Step) {
    || step.CreateStep? || step.ClaimOfferStep?
    || forall cid :: cid in db.connectors ==> FreshFor(db.connectors[cid], step)
  }

  lemma DrawsKeepUnique(c: Connector, c': Connector, step: Step)
    requires Unique(c) && Draws(c, c', step) && FreshFor(c, step)
    ensures Unique(c')
  {}

  /** With such draws message ids are unique at every moment of every run. */
  lemma {:induction false} IdsStayUnique(san: string -> string, db: Db, steps: seq<Step>, cid: Id)
    requires Initial(db) && cid in db.connectors
    requires forall i :: 0 <= i < |steps| ==> FreshDraws(Run(san, db, steps[..i]), steps[i])
    ensures cid in Run(san, db, steps).connectors && Unique(Run(san, db, steps).connectors[cid])
  {
    if steps != [] {
      var n := |steps| - 1;
      var before, step := Run(san, db, steps[..n]), steps[n];
      assert forall i :: 0 <= i < n ==> steps[..n][..i] == steps[..i];
      IdsStayUnique(san, db, steps[..n], cid);
      hide Apply, Unique, FreshFor, Draws;
      EveryWriteDrawsAnId(san, before, step);
      if step.CreateStep? || step.ClaimOfferStep? {
        KeepsConnectors(san, before, step);
      } else {
        assert FreshDraws(before, step);
        DrawsKeepUnique(before.connectors[cid], Apply(san, before, step).connectors[cid], step);
      }
    }
  }
}
