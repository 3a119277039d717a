/** Whole runs of the control plane: any interleaving of the transactions, with
    non-decreasing database time. */
module ServerRuns {
  import opened Common
  import opened ServerTypes
  import opened Accept
  import opened Dispatch
  import opened Repository
  import opened Moves

  datatype Step =
    | AcceptStep(who: Identity, m: ClientMessage, t: Times, uuid: nat -> Id)
    | DispatchStep(who: Identity, choice: Id, t: Times, lease: Id, correlation: Id, uuid: nat -> Id)
    | PendingStep(who: Identity, after: nat, t: Times, uuid: nat -> Id)
    | FailureStep(who: Identity, detail: Id, t: Times, correlation: Id, uuid: nat -> Id)
    | CreateStep(key: CreateKey, digest: Id, repository: Id, mode: Mode, newId: Id, t: Times)
    | CancelStep(owner: Id, job: Id, expected: nat, t: Times, nonce: Id, correlation: Id, uuid: nat -> Id)
    | ClaimOfferStep(job: Id, connector: Id, attempt: nat, lease: Id, t: Times)
    | DecideStep(input: DecideInput, t: Times, correlation: Id, uuid: nat -> Id)

  function Apply(san: string -> string, db: Db, s: Step): Db {
    match s
    case AcceptStep(who, m, t, uuid) => Result(db, AcceptMessage(san, db, who, m, t, uuid))
    case DispatchStep(who, choice, t, lease, correlation, uuid) =>
      Result(db, DispatchNext(db, who, choice, t, lease, correlation, uuid))
    case PendingStep(who, after, t, uuid) => Result(db, PendingMessages(db, who, after, t, uuid))
    case FailureStep(who, detail, t, correlation, uuid) =>
      Result(db, ReportFailure(db, who, detail, t, correlation, uuid))
    case CreateStep(key, digest, repository, mode, newId, t) =>
      Result(db, CreateIdempotent(db, key, digest, repository, mode, newId, t))
    case CancelStep(owner, job, expected, t, nonce, correlation, uuid) =>
      Result(db, CancelAtomically(db, owner, job, expected, t, nonce, correlation, uuid))
    case ClaimOfferStep(job, connector, attempt, lease, t) =>
      Result(db, ClaimOffer(db, job, connector, attempt, lease, t))
    case DecideStep(input, t, correlation, uuid) => Result(db, RecordDecision(db, input, t, correlation, uuid))
  }

  /** Time does not run backwards, and a random job id is not one already in use. */
  predicate StepOk(db: Db, s: Step) {
    s.t.Ordered() && db.clock <= s.t.now && (s.CreateStep? ==> s.newId !in db.book.jobs)
  }

  function Run(san: string -> string, db: Db, steps: seq<Step>): Db {
    if steps == [] then db else Apply(san, Run(san, db, steps[..|steps| - 1]), steps[|steps| - 1])
  }

  predicate ValidRun(san: string -> string, db: Db, steps: seq<Step>) {
    forall i :: 0 <= i < |steps| ==> StepOk(Run(san, db, steps[..i]), steps[i])
  }

  /** No job, approval or message yet; connectors and policies are configured. */
  predicate Initial(db: Db) {
    && db.book == Book(map[], map[], map[]) && db.creations == map[]
    && (forall c :: c in db.connectors ==>
          var k := db.connectors[c]; k.lastClient == 0 && k.lastServer == 0 && k.client == map[] && k.server == map[]
                                     && (k.coordination ==> k.durable))
  }

  lemma RunPrefix(san: string -> string, db: Db, steps: seq<Step>, i: nat)
    requires i < |steps|
    ensures Run(san, db, steps[..i + 1]) == Apply(san, Run(san, db, steps[..i]), steps[i])
  {
    assert steps[..i + 1][..i] == steps[..i];
  }

  lemma ValidPrefix(san: string -> string, db: Db, steps: seq<Step>, i: nat)
    requires ValidRun(san, db, steps) && i <= |steps|
    ensures ValidRun(san, db, steps[..i])
  {
    forall k | 0 <= k < i
      ensures StepOk(Run(san, db, steps[..i][..k]), steps[..i][k])
    {
      assert steps[..i][..k] == steps[..k];
    }
  }

  // ----- one step -----

  /** The job a step offers, if it offers one. */
  function OfferedBy(db: Db, s: Step): Option<Id> {
    if s.DispatchStep? then
      var o := DispatchNext(db, s.who, s.choice, s.t, s.lease, s.correlation, s.uuid);
      if o.Committed? && o.reply.Some? then Some(s.choice) else None
    else None
  }

  lemma StepMoves(san: string -> string, db: Db, s: Step)
    requires JobsOk(db.book) && StepOk(db, s)
    ensures DbMove(db, Apply(san, db, s), s.t, OfferedBy(db, s))
  {
    hide AcceptMessage, CreateIdempotent, CancelAtomically, ClaimOffer, RecordDecision, BookMove;
    match s
    case AcceptStep(who, m, t, uuid) => AcceptMoves(san, db, who, m, t, uuid);
    case DispatchStep(who, choice, t, lease, correlation, uuid) =>
      DispatchMoves(db, who, choice, t, lease, correlation, uuid);
    case PendingStep(who, after, t, uuid) => IdleMoves(db.book, s.t);
    case FailureStep(who, detail, t, correlation, uuid) => IdleMoves(db.book, s.t);
    case CreateStep(key, digest, repository, mode, newId, t) =>
      CreateMoves(db, key, digest, repository, mode, newId, t);
    case CancelStep(owner, job, expected, t, nonce, correlation, uuid) =>
      CancelMoves(db, owner, job, expected, t, nonce, correlation, uuid);
    case ClaimOfferStep(job, connector, attempt, lease, t) => ClaimOfferMoves(db, job, connector, attempt, lease, t);
    case DecideStep(input, t, correlation, uuid) => DecideMoves(db, input, t, correlation, uuid);
  }

  // ----- the book invariant over runs -----

  lemma JobOkKept(o: Job, n: Job, t: Times)
    requires JobOk(o) && (JobMove(o, n, t) || (o.revision < MAX_INT32 && OfferMove(o, n, t)))
    ensures JobOk(n)
  {}

  lemma JobsOkKept(b: Book, b': Book, t: Times, offered: Option<Id>)
    requires JobsOk(b) && BookMove(b, b', t, offered)
    ensures JobsOk(b')
  {
    forall j | j in b'.jobs ensures JobOk(b'.jobs[j]) {
      if j in b.jobs { JobOkKept(b.jobs[j], b'.jobs[j], t); }
    }
  }

  lemma ApprovalKept(b: Book, b': Book, a: Id, t: Times, offered: Option<Id>)
    requires JobsOk(b) && a in b.approvals && ApprovalOk(b, b.approvals[a])
    requires JobsMove(b.jobs, b'.jobs, t, offered) && a in b'.approvals && ApprovalMove(b.approvals[a], b'.approvals[a])
    ensures ApprovalOk(b', b'.approvals[a])
  {
    assert JobOk(b.jobs[b.approvals[a].job]);
  }

  lemma RevisionsDistinct(b: Book, b': Book, a: Id, a': Id)
    requires BookOk(b) && ApprovalsMove(b, b')
    requires a in b'.approvals && a' in b'.approvals && a != a' && b'.approvals[a].job == b'.approvals[a'].job
    ensures b'.approvals[a].revision != b'.approvals[a'].revision
  {
    if a in b.approvals && a' in b.approvals {
      assert b'.approvals[a].revision == b.approvals[a].revision
             && b'.approvals[a'].revision == b.approvals[a'].revision;
    } else {
      var kept, added := if a in b.approvals then a else a', if a in b.approvals then a' else a;
      assert ApprovalOk(b, b.approvals[kept]);
      assert NewApproval(b, b', b'.approvals[added]);
    }
  }

  lemma ApprovalsKept(b: Book, b': Book, t: Times, offered: Option<Id>)
    requires BookOk(b) && BookMove(b, b', t, offered) && JobsOk(b')
    ensures BookOk(b')
  {
    forall a | a in b'.approvals ensures ApprovalOk(b', b'.approvals[a]) {
      if a in b.approvals {
        ApprovalKept(b, b', a, t, offered);
      } else {
        assert NewApproval(b, b', b'.approvals[a]);
        assert JobOk(b.jobs[b'.approvals[a].job]) && JobOk(b'.jobs[b'.approvals[a].job]);
      }
    }
    forall a, a' | a in b'.approvals && a' in b'.approvals && a != a' && b'.approvals[a].job == b'.approvals[a'].job
      ensures b'.approvals[a].revision != b'.approvals[a'].revision
    {
      RevisionsDistinct(b, b', a, a');
    }
  }

  lemma BookOkStep(san: string -> string, db: Db, s: Step)
    requires BookOk(db.book) && StepOk(db, s)
    ensures BookOk(Apply(san, db, s).book)
  {
    StepMoves(san, db, s);
    var db' := Apply(san, db, s);
    JobsOkKept(db.book, db'.book, s.t, OfferedBy(db, s));
    ApprovalsKept(db.book, db'.book, s.t, OfferedBy(db, s));
  }

  lemma {:induction false} BookOkRun(san: string -> string, db: Db, steps: seq<Step>)
    requires BookOk(db.book) && ValidRun(san, db, steps)
    ensures BookOk(Run(san, db, steps).book)
  {
    if steps != [] {
      var n := |steps| - 1;
      ValidPrefix(san, db, steps, n);
      BookOkRun(san, db, steps[..n]);
      BookOkStep(san, Run(san, db, steps[..n]), steps[n]);
    }
  }
}
