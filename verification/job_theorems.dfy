/** Jobs and approvals over whole runs. */
module JobTheorems {
  import opened Common
  import opened JobState
  import opened ServerTypes
  import opened Dispatch
  import opened Repository
  import opened Moves
  import opened ServerRuns

  // ----- how a job may differ between two moments -----

  predicate JobEvolves(o: Job, n: Job) {
    && o.revision <= n.revision
    && (o.revision == n.revision ==> n == o)
    && (Terminal(o.status) ==> n == o)
    && o.attempt <= n.attempt
    && (o.attempt == 1 ==> n.attempt == 1 && n.connector == o.connector)
    && (o.cancelRevision.Some? ==> n.cancelRevision == o.cancelRevision)
    && n.owner == o.owner && n.repository == o.repository && n.mode == o.mode && n.expiresAt == o.expiresAt
  }

  predicate ApprovalEvolves(o: Approval, n: Approval) {
    n == o.(decision := n.decision) && (o.decision.Some? ==> n.decision == o.decision)
  }

  predicate BookEvolves(b: Book, b': Book) {
    && (forall j :: j in b.jobs ==> j in b'.jobs && JobEvolves(b.jobs[j], b'.jobs[j]))
    && (forall a :: a in b.approvals ==> a in b'.approvals && ApprovalEvolves(b.approvals[a], b'.approvals[a]))
    && (forall j :: j in b.events ==> j in b'.events && b.events[j] <= b'.events[j])
  }

  lemma MoveEvolves(o: Job, n: Job, t: Times)
    requires JobOk(o) && (JobMove(o, n, t) || (o.revision < MAX_INT32 && OfferMove(o, n, t)))
    ensures JobEvolves(o, n)
  {}

  lemma BookMoveEvolves(b: Book, b': Book, t: Times, offered: Option<Id>)
    requires JobsOk(b) && BookMove(b, b', t, offered)
    ensures BookEvolves(b, b')
  {
    forall j | j in b.jobs ensures j in b'.jobs && JobEvolves(b.jobs[j], b'.jobs[j]) {
      MoveEvolves(b.jobs[j], b'.jobs[j], t);
    }
  }

  lemma EvolvesTransitive(a: Book, b: Book, c: Book)
    requires BookEvolves(a, b) && BookEvolves(b, c)
    ensures BookEvolves(a, c)
  {
    forall j | j in a.jobs ensures j in c.jobs && JobEvolves(a.jobs[j], c.jobs[j]) {
      assert JobEvolves(a.jobs[j], b.jobs[j]) && JobEvolves(b.jobs[j], c.jobs[j]);
    }
    forall x | x in a.approvals ensures x in c.approvals && ApprovalEvolves(a.approvals[x], c.approvals[x]) {
      assert ApprovalEvolves(a.approvals[x], b.approvals[x]) && ApprovalEvolves(b.approvals[x], c.approvals[x]);
    }
  }

  /** The state of a run after its first `i` steps. */
  function At(san: string -> string, db: Db, steps: seq<Step>, i: nat): Db
    requires i <= |steps|
  {
    Run(san, db, steps[..i])
  }

  lemma OkAt(san: string -> string, db: Db, steps: seq<Step>, i: nat)
    requires BookOk(db.book) && ValidRun(san, db, steps) && i <= |steps|
    ensures BookOk(At(san, db, steps, i).book)
  {
    ValidPrefix(san, db, steps, i);
    BookOkRun(san, db, steps[..i]);
  }

  lemma MoveAt(san: string -> string, db: Db, steps: seq<Step>, k: nat)
    requires BookOk(db.book) && ValidRun(san, db, steps) && k < |steps|
    ensures DbMove(At(san, db, steps, k), At(san, db, steps, k + 1), steps[k].t,
                   OfferedBy(At(san, db, steps, k), steps[k]))
    ensures BookOk(At(san, db, steps, k).book)
    ensures StepOk(At(san, db, steps, k), steps[k])
  {
    OkAt(san, db, steps, k);
    RunPrefix(san, db, steps, k);
    hide Run, Apply, DbMove;
    StepMoves(san, At(san, db, steps, k), steps[k]);
  }

  /** Between any two moments of a run: terminal jobs are frozen, revisions and
      attempts only grow, the owning connector and the cancellation revision of
      a claimed job are fixed, a decision is never changed, and the event log
      is append-only. */
  lemma {:induction false} HistoryOnlyGrows(san: string -> string, db: Db, steps: seq<Step>, i: nat, j: nat)
    requires BookOk(db.book) && ValidRun(san, db, steps) && i <= j <= |steps|
    ensures BookEvolves(At(san, db, steps, i).book, At(san, db, steps, j).book)
    decreases j - i
  {
    hide Run, DbMove, BookMove, BookOk, JobsOk;
    if i < j {
      HistoryOnlyGrows(san, db, steps, i, j - 1);
      StepEvolves(san, db, steps, j - 1);
      EvolvesTransitive(At(san, db, steps, i).book, At(san, db, steps, j - 1).book, At(san, db, steps, j).book);
    }
  }

  lemma StepEvolves(san: string -> string, db: Db, steps: seq<Step>, k: nat)
    requires BookOk(db.book) && ValidRun(san, db, steps) && k < |steps|
    ensures BookEvolves(At(san, db, steps, k).book, At(san, db, steps, k + 1).book)
  {
    hide Run, BookMove, BookEvolves;
    MoveAt(san, db, steps, k);
    BookMoveEvolves(At(san, db, steps, k).book, At(san, db, steps, k + 1).book, steps[k].t,
                    OfferedBy(At(san, db, steps, k), steps[k]));
  }

  /** A write raises the revision by exactly one, keeps the status or follows
      the transition relation, and never touches a terminal job. */
  predicate LegalWrite(o: Job, n: Job) {
    || n == o
    || (&& n.revision == o.revision + 1 && !Terminal(o.status)
        && (CanTransition(o.status, n.status) || (n.status == o.status && !o.status.Queued?)))
  }

  lemma EveryWriteIsLegal(san: string -> string, db: Db, steps: seq<Step>, k: nat, id: Id)
    requires BookOk(db.book) && ValidRun(san, db, steps) && k < |steps|
    requires id in At(san, db, steps, k).book.jobs
    ensures id in At(san, db, steps, k + 1).book.jobs
    ensures LegalWrite(At(san, db, steps, k).book.jobs[id], At(san, db, steps, k + 1).book.jobs[id])
  {
    hide Run;
    MoveAt(san, db, steps, k);
    var b, b' := At(san, db, steps, k).book, At(san, db, steps, k + 1).book;
    assert JobOk(b.jobs[id]);
    WriteIsLegal(b.jobs[id], b'.jobs[id], steps[k].t);
  }

  lemma WriteIsLegal(o: Job, n: Job, t: Times)
    requires JobOk(o) && (JobMove(o, n, t) || OfferMove(o, n, t))
    ensures LegalWrite(o, n)
  {}

  /** Every job of every run: attempt 0 until claimed and 1 afterwards, a
      terminal time exactly when terminal, and a cancellation revision that
      never exceeds the revision. */
  lemma ReachableJobs(san: string -> string, db: Db, steps: seq<Step>, i: nat, id: Id)
    requires Initial(db) && ValidRun(san, db, steps) && i <= |steps|
    requires id in At(san, db, steps, i).book.jobs
    ensures JobOk(At(san, db, steps, i).book.jobs[id])
  {
    OkAt(san, db, steps, i);
  }

  /** A job is claimed at most once in any run, whatever connectors, leases and
      redispatches occur: the step that changes its attempt takes it from a
      live offer to running, every earlier attempt is 0, every later one is 1,
      and the connector that made the claim owns it from then on. */
  lemma SingleClaim(san: string -> string, db: Db, steps: seq<Step>, k: nat, id: Id)
    requires Initial(db) && ValidRun(san, db, steps) && k < |steps|
    requires id in At(san, db, steps, k).book.jobs && id in At(san, db, steps, k + 1).book.jobs
    requires At(san, db, steps, k).book.jobs[id].attempt != At(san, db, steps, k + 1).book.jobs[id].attempt
    ensures var o, n := At(san, db, steps, k).book.jobs[id], At(san, db, steps, k + 1).book.jobs[id];
            && o.status.Dispatched? && n.status.Running? && o.attempt == 0 && n.attempt == 1
            && n.connector == o.connector && n.connector.Some?
            && o.leaseExpiresAt.Some? && o.leaseExpiresAt.value > steps[k].t.write
    ensures forall i :: 0 <= i <= k && id in At(san, db, steps, i).book.jobs ==>
            At(san, db, steps, i).book.jobs[id].attempt == 0
    ensures forall i :: k < i <= |steps| ==>
              && id in At(san, db, steps, i).book.jobs
              && At(san, db, steps, i).book.jobs[id].attempt == 1
              && At(san, db, steps, i).book.jobs[id].connector == At(san, db, steps, k).book.jobs[id].connector
  {
    hide Run;
    MoveAt(san, db, steps, k);
    var o, n := At(san, db, steps, k).book.jobs[id], At(san, db, steps, k + 1).book.jobs[id];
    assert JobOk(o);
    ClaimIsSingle(o, n, steps[k].t);
    forall i | 0 <= i <= k && id in At(san, db, steps, i).book.jobs
      ensures At(san, db, steps, i).book.jobs[id].attempt == 0
    {
      HistoryOnlyGrows(san, db, steps, i, k);
      assert JobEvolves(At(san, db, steps, i).book.jobs[id], o);
    }
    forall i | k < i <= |steps|
      ensures id in At(san, db, steps, i).book.jobs && At(san, db, steps, i).book.jobs[id].attempt == 1
              && At(san, db, steps, i).book.jobs[id].connector == o.connector
    {
      HistoryOnlyGrows(san, db, steps, k + 1, i);
      assert JobEvolves(n, At(san, db, steps, i).book.jobs[id]);
    }
  }

  lemma ClaimIsSingle(o: Job, n: Job, t: Times)
    requires JobOk(o) && (JobMove(o, n, t) || OfferMove(o, n, t)) && o.attempt != n.attempt
    ensures o.status.Dispatched? && n.status.Running? && o.attempt == 0 && n.attempt == 1
    ensures n.connector == o.connector && n.connector.Some?
    ensures o.leaseExpiresAt.Some? && o.leaseExpiresAt.value > t.write
  {}

  // ----- the concurrency cap -----

  /** The jobs that occupy a slot of repository `r` at time `at`. */
  function Slots(jobs: map<Id, Job>, r: Id, at: int): set<Id> {
    set j | j in jobs && jobs[j].repository == r && ActiveAt(jobs[j], at)
  }

  predicate Owned(db: Db) {
    forall j :: j in db.book.jobs ==> OwnedBy(db.policies, db.book.jobs[j])
  }

  predicate CapHeld(db: Db) {
    Owned(db) && forall r :: r in db.policies ==> |Slots(db.book.jobs, r, db.clock)| <= db.policies[r].maxConcurrency
  }

  /** A job that holds a slot after a move already held it before, unless the
      move offered it. */
  lemma SlotKept(o: Job, n: Job, t: Times)
    requires t.Ordered() && JobOk(o) && JobMove(o, n, t) && ActiveAt(n, t.after)
    ensures ActiveAt(o, t.now)
  {}

  lemma SlotsShrink(b: map<Id, Job>, b': map<Id, Job>, t: Times, offered: Option<Id>, r: Id, clock: int)
    requires t.Ordered() && JobsMove(b, b', t, offered) && clock <= t.now
    requires forall j :: j in b ==> JobOk(b[j])
    ensures Slots(b', r, t.after) <= Slots(b, r, t.now) + (if offered.Some?
                                                           && b[offered.value].repository == r then {offered.value}
                                                              else {})
    ensures Slots(b, r, t.now) <= Slots(b, r, clock)
  {
    forall j | j in Slots(b', r, t.after) && offered != Some(j) ensures j in Slots(b, r, t.now) {
      assert j in b;
      SlotKept(b[j], b'[j], t);
    }
  }

  lemma OwnedStep(san: string -> string, db: Db, s: Step)
    requires BookOk(db.book) && StepOk(db, s) && Owned(db)
    ensures Owned(Apply(san, db, s))
  {
    StepMoves(san, db, s);
    var db' := Apply(san, db, s);
    forall j | j in db'.book.jobs ensures OwnedBy(db'.policies, db'.book.jobs[j]) {
      if j in db.book.jobs { MoveEvolves(db.book.jobs[j], db'.book.jobs[j], s.t); }
    }
  }

  lemma CapStep(san: string -> string, db: Db, s: Step)
    requires BookOk(db.book) && StepOk(db, s) && CapHeld(db)
    ensures CapHeld(Apply(san, db, s))
  {
    var db' := Apply(san, db, s);
    StepMoves(san, db, s);
    OwnedStep(san, db, s);
    forall r | r in db'.policies ensures |Slots(db'.book.jobs, r, db'.clock)| <= db'.policies[r].maxConcurrency {
      if db'.clock == s.t.after {
        CapAfterMove(db, db', s.t, OfferedBy(db, s), s, r);
      }
    }
  }

  lemma CapAfterMove(db: Db, db': Db, t: Times, offered: Option<Id>, s: Step, r: Id)
    requires BookOk(db.book) && t == s.t && StepOk(db, s) && CapHeld(db) && r in db.policies
    requires offered == OfferedBy(db, s) && JobsMove(db.book.jobs, db'.book.jobs, t, offered) && db'.clock == t.after
    ensures |Slots(db'.book.jobs, r, db'.clock)| <= db.policies[r].maxConcurrency
  {
    SlotsShrink(db.book.jobs, db'.book.jobs, t, offered, r, db.clock);
    var before, after := Slots(db.book.jobs, r, t.now), Slots(db'.book.jobs, r, t.after);
    if offered.Some? && db.book.jobs[offered.value].repository == r {
      OfferHasSlot(db, s);
      var j := offered.value;
      assert Slots(db.book.jobs, r, t.now) <= ActiveJobs(db.book.jobs, s.who.owner, r, t.now);
      SubsetSize(before, ActiveJobs(db.book.jobs, s.who.owner, r, t.now));
      SubsetSize(after, before + {j});
      assert |before + {j}| <= |before| + 1;
    } else {
      assert after <= before;
      SubsetSize(after, before);
      SubsetSize(before, Slots(db.book.jobs, r, db.clock));
    }
  }

  /** A job is offered only when its repository has a free slot. */
  lemma OfferHasSlot(db: Db, s: Step)
    requires BookOk(db.book) && StepOk(db, s) && OfferedBy(db, s).Some?
    ensures Offerable(db, s.who.owner, s.choice, s.t.now) && OfferedBy(db, s).value == s.choice
  {
    DispatchedBook(db, s.who, s.choice, s.t, s.lease, s.correlation, s.uuid);
  }

  /** In every run, at every later time, the jobs holding a slot of a
      repository never outnumber its configured concurrency. */
  lemma {:induction false} ConcurrencyCap(san: string -> string, db: Db, steps: seq<Step>)
    requires Initial(db) && ValidRun(san, db, steps)
    ensures CapHeld(Run(san, db, steps))
    ensures forall r, at :: r in Run(san, db, steps).policies && at >= Run(san, db, steps).clock ==>
              |Slots(Run(san, db, steps).book.jobs, r, at)| <= Run(san, db, steps).policies[r].maxConcurrency
  {
    if steps == [] {
      forall r | r in db.policies ensures |Slots(db.book.jobs, r, db.clock)| <= db.policies[r].maxConcurrency {
        assert Slots(db.book.jobs, r, db.clock) == {};
      }
    } else {
      var n := |steps| - 1;
      ValidPrefix(san, db, steps, n);
      ConcurrencyCap(san, db, steps[..n]);
      BookOkRun(san, db, steps[..n]);
      CapStep(san, Run(san, db, steps[..n]), steps[n]);
    }
    CapFromThenOn(Run(san, db, steps));
  }

  lemma CapFromThenOn(db: Db)
    requires CapHeld(db)
    ensures forall r, at :: r in db.policies && at >= db.clock ==>
            |Slots(db.book.jobs, r, at)| <= db.policies[r].maxConcurrency
  {
    forall r, at | r in db.policies && at >= db.clock
      ensures |Slots(db.book.jobs, r, at)| <= db.policies[r].maxConcurrency
    {
      SubsetSize(Slots(db.book.jobs, r, at), Slots(db.book.jobs, r, db.clock));
    }
  }

  // ----- approvals -----

  /** At most one approval of a job is ever awaiting a decision. */
  lemma OnePendingApproval(san: string -> string, db: Db, steps: seq<Step>, a: Id, a': Id, now: int)
    requires Initial(db) && ValidRun(san, db, steps)
    requires var b := Run(san, db, steps).book;
             Pending(b, a, now) && Pending(b, a', now) && b.approvals[a].job == b.approvals[a'].job
    ensures a == a'
  {
    BookOkRun(san, db, steps);
  }
}
