/** Idempotent creation over whole runs (apps/control-plane/src/db/
    job-repository.ts, createIdempotent). */
module Creations {
  import opened Common
  import opened ServerTypes
  import opened Business
  import opened Accept
  import opened Dispatch
  import opened Repository
  import opened Moves
  import opened ServerRuns
  import opened JobTheorems

  /** Every creation record names a job of its owner, and no two name the same. */
  predicate CreationsOk(db: Db) {
    && (forall k :: k in db.creations ==>
          db.creations[k].job in db.book.jobs && db.book.jobs[db.creations[k].job].owner == k.owner)
    && (forall k, k' :: k in db.creations && k' in db.creations && k != k' ==>
          db.creations[k].job != db.creations[k'].job)
  }

  /** Records are only added. */
  predicate CreationsGrow(db: Db, db': Db) {
    forall k :: k in db.creations ==> k in db'.creations && db'.creations[k] == db.creations[k]
  }

  // ----- one step -----

  lemma CancelKeepsCreations(db: Db, owner: Id, id: Id, expected: nat, t: Times, nonce: Id, correlation: Id,
                             uuid: nat -> Id)
    ensures Result(db, CancelAtomically(db, owner, id, expected, t, nonce, correlation, uuid)).creations
         == db.creations
  {
    hide WriteJob;
  }

  lemma DispatchKeepsCreations(db: Db, who: Identity, choice: Id, t: Times, lease: Id, correlation: Id,
                               uuid: nat -> Id)
    ensures Result(db, DispatchNext(db, who, choice, t, lease, correlation, uuid)).creations == db.creations
  {
    hide HasSlot, WriteJob;
  }

  lemma ClaimKeepsCreations(db: Db, id: Id, connector: Id, attempt: nat, lease: Id, t: Times)
    ensures Result(db, ClaimOffer(db, id, connector, attempt, lease, t)).creations == db.creations
  {
    hide WriteJob;
  }

  lemma DecideKeepsCreations(db: Db, i: DecideInput, t: Times, correlation: Id, uuid: nat -> Id)
    ensures Result(db, RecordDecision(db, i, t, correlation, uuid)).creations == db.creations
  {
    hide AppendEvent;
  }

  /** Only a creation touches the records. */
  lemma OthersKeepCreations(san: string -> string, db: Db, s: Step)
    requires !s.CreateStep?
    ensures Apply(san, db, s).creations == db.creations
  {
    hide AcceptMessage, DispatchNext, CancelAtomically, ClaimOffer, RecordDecision;
    match s
    case AcceptStep(who, m, t, uuid) => AcceptedBook(san, db, who, m, t, uuid);
    case DispatchStep(who, choice, t, lease, correlation, uuid) =>
      DispatchKeepsCreations(db, who, choice, t, lease, correlation, uuid);
    case PendingStep(_, _, _, _) =>
    case FailureStep(_, _, _, _, _) =>
    case CancelStep(owner, job, expected, t, nonce, correlation, uuid) =>
      CancelKeepsCreations(db, owner, job, expected, t, nonce, correlation, uuid);
    case ClaimOfferStep(job, connector, attempt, lease, t) =>
      ClaimKeepsCreations(db, job, connector, attempt, lease, t);
    case DecideStep(input, t, correlation, uuid) => DecideKeepsCreations(db, input, t, correlation, uuid);
  }

  lemma CreateKeepsOk(db: Db, key: CreateKey, digest: Id, repository: Id, mode: Mode, newId: Id, t: Times)
    requires CreationsOk(db) && newId !in db.book.jobs
    ensures var db' := Result(db, CreateIdempotent(db, key, digest, repository, mode, newId, t));
            CreationsOk(db') && CreationsGrow(db, db')
  {}

  lemma JobsKeepOk(db: Db, db': Db)
    requires CreationsOk(db) && db'.creations == db.creations && BookEvolves(db.book, db'.book)
    ensures CreationsOk(db') && CreationsGrow(db, db')
  {
    forall k | k in db.creations ensures db'.book.jobs[db.creations[k].job].owner == k.owner {
      var j := db.creations[k].job;
      assert JobEvolves(db.book.jobs[j], db'.book.jobs[j]);
    }
  }

  // ----- every run -----

  lemma CreationStepAt(san: string -> string, db: Db, steps: seq<Step>, k: nat)
    requires BookOk(db.book) && ValidRun(san, db, steps) && k < |steps| && CreationsOk(At(san, db, steps, k))
    ensures CreationsOk(At(san, db, steps, k + 1)) && CreationsGrow(At(san, db, steps, k), At(san, db, steps, k + 1))
  {
    hide Run, BookOk, BookEvolves, CreationsOk, CreationsGrow, CreateIdempotent;
    RunPrefix(san, db, steps, k);
    StepEvolves(san, db, steps, k);
    var d, s := At(san, db, steps, k), steps[k];
    assert StepOk(d, s);
    if s.CreateStep? {
      CreateKeepsOk(d, s.key, s.digest, s.repository, s.mode, s.newId, s.t);
      assert Apply(san, d, s) == Result(d, CreateIdempotent(d, s.key, s.digest, s.repository, s.mode, s.newId, s.t));
    } else {
      OthersKeepCreations(san, d, s);
      hide Apply;
      JobsKeepOk(d, At(san, db, steps, k + 1));
    }
  }

  lemma {:induction false} CreationsHold(san: string -> string, db: Db, steps: seq<Step>, i: nat)
    requires Initial(db) && ValidRun(san, db, steps) && i <= |steps|
    ensures CreationsOk(At(san, db, steps, i))
  {
    if i > 0 {
      hide Run, CreationsOk, CreationsGrow, BookOk, ValidRun;
      InitialBook(db);
      CreationsHold(san, db, steps, i - 1);
      CreationStepAt(san, db, steps, i - 1);
    } else {
      assert steps[..0] == [];
    }
  }

  lemma {:induction false} CreationsStay(san: string -> string, db: Db, steps: seq<Step>, i: nat, j: nat)
    requires Initial(db) && ValidRun(san, db, steps) && i <= j <= |steps|
    ensures CreationsGrow(At(san, db, steps, i), At(san, db, steps, j))
    decreases j - i
  {
    hide Run, CreationsOk, CreationsGrow, BookOk, ValidRun;
    GrowReflexive(At(san, db, steps, i));
    if i < j {
      CreationsStay(san, db, steps, i, j - 1);
      CreationsHold(san, db, steps, j - 1);
      InitialBook(db);
      CreationStepAt(san, db, steps, j - 1);
      GrowTransitive(At(san, db, steps, i), At(san, db, steps, j - 1), At(san, db, steps, j));
    }
  }

  lemma GrowReflexive(a: Db)
    ensures CreationsGrow(a, a)
  {}

  lemma GrowTransitive(a: Db, b: Db, c: Db)
    requires CreationsGrow(a, b) && CreationsGrow(b, c)
    ensures CreationsGrow(a, c)
  {}

  lemma InitialBook(db: Db)
    requires Initial(db)
    ensures BookOk(db.book)
  {}

  /** What a creation that succeeds leaves behind. */
  lemma CreateRecords(db: Db, key: CreateKey, digest: Id, repository: Id, mode: Mode, newId: Id, t: Times)
    requires CreateIdempotent(db, key, digest, repository, mode, newId, t).Committed?
    ensures var o := CreateIdempotent(db, key, digest, repository, mode, newId, t);
            key in o.db.creations && o.db.creations[key] == CreateRecord(digest, o.reply)
  {}

  /** Idempotent creation. Once a creation has succeeded in a run, the same
      request at any later moment, whatever else it carries, returns the very
      same job and changes nothing; the same key with another request conflicts;
      the job is the key owner's, and no other key ever names it. */
  lemma CreatedOnce(san: string -> string, db: Db, steps: seq<Step>, i: nat, j: nat,
                    digest: Id, repository: Id, mode: Mode, newId: Id, t: Times)
    requires Initial(db) && ValidRun(san, db, steps) && i < j <= |steps| && steps[i].CreateStep?
    requires var s := steps[i];
             CreateIdempotent(At(san, db, steps, i), s.key, s.digest, s.repository, s.mode, s.newId, s.t).Committed?
    ensures var s, d := steps[i], At(san, db, steps, j);
            var first := CreateIdempotent(At(san, db, steps, i), s.key, s.digest, s.repository, s.mode, s.newId, s.t);
            && CreateIdempotent(d, s.key, digest, repository, mode, newId, t)
               == (if digest == s.digest then Committed(d, first.reply) else Aborted(IdempotencyConflict))
            && first.reply in d.book.jobs && d.book.jobs[first.reply].owner == s.key.owner
            && (forall k :: k in d.creations && d.creations[k].job == first.reply ==> k == s.key)
  {
    hide Run;
    var s, b := steps[i], At(san, db, steps, i);
    CreateRecords(b, s.key, s.digest, s.repository, s.mode, s.newId, s.t);
    RunPrefix(san, db, steps, i);
    assert At(san, db, steps, i + 1) == Apply(san, b, s);
    CreationsStay(san, db, steps, i + 1, j);
    CreationsHold(san, db, steps, j);
  }
}
