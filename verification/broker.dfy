/** The approval broker (packages/harness-plugin/src/approvals/approval-broker.ts).
    JavaScript runs it between awaits, so each step below is atomic; what the
    reservation, the clock and the signals say at that moment is its argument. */
module Broker {
  import opened Common

  const MAX_ADMISSIONS: nat := 32

  datatype Outcome = AllowedOnce | Rejected | Cancelled | Unavailable

  type Key = (Id, nat)

  /** What a request waits for: the payload it published and its deadline. */
  datatype Waiter = Waiter(key: Key, revision: nat, fingerprint: Id, deadline: int)

  /** An admitted request, until its promise is delivered. */
  datatype Admission = Waiting(approval: Id) | Resolved(approval: Id, outcome: Outcome, deadline: int)

  datatype Decision = Decision(approval: Id, key: Key, revision: nat, fingerprint: Id, approve: bool, expiresAt: int)

  datatype Settlement = Settlement(approval: Id, outcome: Outcome)

  /** What a request was answered, when, and whether the broker was disposed by then. */
  datatype Delivery = Delivery(approval: Id, outcome: Outcome, at: int, disposed: bool)

  /** The broker's fields, and a history that the source does not keep: every
      published payload, accepted decision, settlement and delivered outcome. */
  datatype State = State(
    waiters: map<Id, Waiter>, admissions: map<Key, Admission>, disposed: bool,
    nextId: Id, published: map<Id, Waiter>, accepted: seq<Decision>,
    settlements: seq<Settlement>, delivered: seq<Delivery>)

  const New: State := State(map[], map[], false, 0, map[], [], [], [])

  /** settle: only the first call for a waiter does anything. A failing cleanup
      turns the outcome into unavailable. */
  function Settle(b: State, id: Id, outcome: Outcome, deadline: int, cleanupFails: bool): State {
    if id !in b.waiters then b
    else
      var w := b.waiters[id];
      var o := if cleanupFails then Unavailable else outcome;
      b.(waiters := b.waiters - {id},
         admissions := b.admissions[w.key := Resolved(id, o, Min(w.deadline, deadline))],
         settlements := b.settlements + [Settlement(id, o)])
  }

  /** The waiter registered under a fresh id, and its admission. */
  function Admitted(b: State, w: Waiter): State {
    b.(waiters := b.waiters[b.nextId := w], admissions := b.admissions[w.key := Waiting(b.nextId)],
       nextId := b.nextId + 1, published := b.published[b.nextId := w])
  }

  /** The reservation as checked before anything is published: its revision and
      the deadline clamped to it; None when absent, stale or out of range. */
  datatype Reservation = Reservation(revision: nat, deadline: int)

  /** request, up to its await. An id is drawn for the approval; `early` is an
      abort or loss noticed while the waiter was being set up. */
  function Request(b: State, key: Key, fingerprint: Id, refused: bool, r: Option<Reservation>,
                   early: Option<Outcome>): State {
    if refused || b.disposed || |b.admissions| >= MAX_ADMISSIONS || key in b.admissions || r.None? then b
    else
      var w := Waiter(key, r.value.revision, fingerprint, r.value.deadline);
      var c := Admitted(b, w);
      if early.Some? && !early.value.AllowedOnce? then Settle(c, b.nextId, early.value, w.deadline, false) else c
  }

  predicate Matches(w: Waiter, d: Decision) {
    d.key == w.key && d.revision == w.revision && d.fingerprint == w.fingerprint
  }

  /** What acceptDecision finds about the waiter's signals and reservation. */
  datatype Moment = Moment(now: int, aborted: bool, lost: bool, cleanupFails: bool)

  predicate Accepts(b: State, d: Decision, m: Moment) {
    && d.approval in b.waiters && !m.aborted && m.now < b.waiters[d.approval].deadline && !m.lost
    && m.now < d.expiresAt && Matches(b.waiters[d.approval], d)
  }

  /** acceptDecision. */
  function Decide(b: State, d: Decision, m: Moment): State {
    if d.approval !in b.waiters then b
    else if m.aborted then Settle(b, d.approval, Cancelled, b.waiters[d.approval].deadline, m.cleanupFails)
    else if m.now >= b.waiters[d.approval].deadline || m.lost then
      Settle(b, d.approval, Unavailable, b.waiters[d.approval].deadline, m.cleanupFails)
    else if Accepts(b, d, m) then
      Settle(b, d.approval, if d.approve then AllowedOnce else Rejected, d.expiresAt,
             m.cleanupFails).(accepted := b.accepted + [d])
    else b
  }

  /** The rest of request after its await: the last checks, and the admission ends. */
  function FinalOutcome(a: Admission, disposed: bool, m: Moment): Outcome
    requires a.Resolved?
  {
    if m.aborted then Cancelled
    else if a.outcome.AllowedOnce? && (m.lost || disposed || m.now >= a.deadline) then Unavailable
    else a.outcome
  }

  function Deliver(b: State, key: Key, m: Moment): State {
    if key !in b.admissions || !b.admissions[key].Resolved? then b
    else
      var a := b.admissions[key];
      b.(admissions := b.admissions - {key},
         delivered := b.delivered + [Delivery(a.approval, FinalOutcome(a, b.disposed, m), m.now, b.disposed)])
  }

  /** The waiters of `ids` settled as unavailable, one after the other. */
  function SettleAll(b: State, ids: seq<Id>): State {
    if ids == [] then b
    else
      var c := SettleAll(b, ids[..|ids| - 1]);
      var id := ids[|ids| - 1];
      Settle(c, id, Unavailable, if id in c.waiters then c.waiters[id].deadline else 0, false)
  }

  datatype Step =
    | RequestStep(key: Key, fingerprint: Id, refused: bool, reservation: Option<Reservation>, early: Option<Outcome>)
    | LoseStep(approval: Id, outcome: Outcome, cleanupFails: bool)   // abort, timeout, lost authority or failed publish
    | DecideStep(decision: Decision, moment: Moment)
    | DeliverStep(done: Key, at: Moment)
    | DisposeStep(ids: seq<Id>)

  function Next(b: State, step: Step): State {
    match step
    case RequestStep(key, fingerprint, refused, r, early) => Request(b, key, fingerprint, refused, r, early)
    case LoseStep(id, outcome, fails) =>
      if outcome.AllowedOnce? || outcome.Rejected? || id !in b.waiters then b
      else Settle(b, id, outcome, b.waiters[id].deadline, fails)
    case DecideStep(d, m) => Decide(b, d, m)
    case DeliverStep(key, m) => Deliver(b, key, m)
    case DisposeStep(ids) => SettleAll(b.(disposed := true), ids)
  }

  function Run(b: State, steps: seq<Step>): State {
    if steps == [] then b else Next(Run(b, steps[..|steps| - 1]), steps[|steps| - 1])
  }

  // ----- the invariant -----

  /** Waiters and waiting admissions are the same requests. */
  predicate Paired(b: State) {
    && (forall id :: id in b.waiters ==>
          b.waiters[id].key in b.admissions && b.admissions[b.waiters[id].key] == Waiting(id))
    && (forall k :: k in b.admissions && b.admissions[k].Waiting? ==>
          b.admissions[k].approval in b.waiters && b.waiters[b.admissions[k].approval].key == k)
  }

  predicate IdsKnown(b: State) {
    && (forall id :: id in b.published ==> id < b.nextId)
    && (forall id :: id in b.waiters ==> id in b.published && b.published[id] == b.waiters[id])
    && (forall i :: 0 <= i < |b.settlements| ==>
          b.settlements[i].approval in b.published && b.settlements[i].approval !in b.waiters)
  }

  /** Each waiter settles at most once. */
  predicate SettledOnce(b: State) {
    forall i, j :: 0 <= i < j < |b.settlements| ==> b.settlements[i].approval != b.settlements[j].approval
  }

  /** Each decision accepted is for a published payload it matches, and settled it. */
  predicate AcceptedOnce(b: State) {
    && (forall i :: 0 <= i < |b.accepted| ==>
          && b.accepted[i].approval in b.published && b.accepted[i].approval !in b.waiters
          && Matches(b.published[b.accepted[i].approval], b.accepted[i]))
    && (forall i, j :: 0 <= i < j < |b.accepted| ==> b.accepted[i].approval != b.accepted[j].approval)
  }

  predicate Approved(accepted: seq<Decision>, id: Id) {
    exists i :: 0 <= i < |accepted| && accepted[i].approval == id && accepted[i].approve
  }

  predicate AllowedApproved(b: State) {
    forall i :: 0 <= i < |b.settlements| && b.settlements[i].outcome.AllowedOnce? ==>
      Approved(b.accepted, b.settlements[i].approval)
  }

  predicate ResolvedSettled(b: State) {
    && (forall k :: k in b.admissions && b.admissions[k].Resolved? ==>
          Settlement(b.admissions[k].approval, b.admissions[k].outcome) in b.settlements)
    && (forall i :: 0 <= i < |b.delivered| && b.delivered[i].outcome.AllowedOnce? ==>
          Settlement(b.delivered[i].approval, AllowedOnce) in b.settlements)
  }

  /** An answered or settled request is done: it waits no more, its place is its
      own, and it is answered once. */
  predicate DeliveredOnce(b: State) {
    && (forall k :: k in b.admissions && b.admissions[k].Resolved? ==>
          var id := b.admissions[k].approval;
          && id in b.published && b.published[id].key == k && id !in b.waiters
          && forall i :: 0 <= i < |b.delivered| ==> b.delivered[i].approval != id)
    && (forall i :: 0 <= i < |b.delivered| ==>
          b.delivered[i].approval in b.published && b.delivered[i].approval !in b.waiters)
    && (forall i, j :: 0 <= i < j < |b.delivered| ==> b.delivered[i].approval != b.delivered[j].approval)
  }

  /** The time is no later than the request's deadline and the expiry of any
      decision accepted for it. */
  predicate Within(b: State, id: Id, time: int) {
    && id in b.published && time <= b.published[id].deadline
    && forall i :: 0 <= i < |b.accepted| && b.accepted[i].approval == id ==> time <= b.accepted[i].expiresAt
  }

  predicate OnTime(b: State) {
    && (forall k :: k in b.admissions && b.admissions[k].Resolved? ==>
          Within(b, b.admissions[k].approval, b.admissions[k].deadline))
    && (forall i :: 0 <= i < |b.delivered| && b.delivered[i].outcome.AllowedOnce? ==>
          Within(b, b.delivered[i].approval, b.delivered[i].at + 1) && !b.delivered[i].disposed)
  }

  predicate Punctual(b: State) { DeliveredOnce(b) && OnTime(b) }

  predicate Inv(b: State) {
    && |b.admissions| <= MAX_ADMISSIONS
    && Paired(b) && IdsKnown(b) && SettledOnce(b) && AcceptedOnce(b) && AllowedApproved(b) && ResolvedSettled(b)
  }

  /** Everything but the approvals of allowed outcomes. */
  predicate Core(b: State) {
    |b.admissions| <= MAX_ADMISSIONS && Paired(b) && IdsKnown(b) && SettledOnce(b) && AcceptedOnce(b)
      && ResolvedSettled(b)
  }

  lemma SettlePaired(b: State, id: Id, outcome: Outcome, deadline: int, fails: bool)
    requires Paired(b)
    ensures Paired(Settle(b, id, outcome, deadline, fails))
  {}

  lemma SettleIds(b: State, id: Id, outcome: Outcome, deadline: int, fails: bool)
    requires IdsKnown(b) && SettledOnce(b)
    ensures IdsKnown(Settle(b, id, outcome, deadline, fails)) && SettledOnce(Settle(b, id, outcome, deadline, fails))
  {}

  lemma SettleAccepted(b: State, id: Id, outcome: Outcome, deadline: int, fails: bool)
    requires AcceptedOnce(b)
    ensures AcceptedOnce(Settle(b, id, outcome, deadline, fails))
  {}

  lemma SettleResolved(b: State, id: Id, outcome: Outcome, deadline: int, fails: bool)
    requires ResolvedSettled(b)
    ensures ResolvedSettled(Settle(b, id, outcome, deadline, fails))
  {
    var c := Settle(b, id, outcome, deadline, fails);
    if id in b.waiters {
      assert c.settlements[|b.settlements|] in c.settlements;
      assert forall s :: s in b.settlements ==> s in c.settlements;
    }
  }

  lemma SettleSize(b: State, id: Id, outcome: Outcome, deadline: int, fails: bool)
    requires Paired(b)
    ensures |Settle(b, id, outcome, deadline, fails).admissions| == |b.admissions|
  {
    var c := Settle(b, id, outcome, deadline, fails);
    assert c.admissions.Keys == b.admissions.Keys;
    assert |c.admissions| == |c.admissions.Keys| && |b.admissions| == |b.admissions.Keys|;
  }

  lemma SettleCore(b: State, id: Id, outcome: Outcome, deadline: int, fails: bool)
    requires Core(b)
    ensures Core(Settle(b, id, outcome, deadline, fails))
  {
    hide Settle, Paired, IdsKnown, SettledOnce, AcceptedOnce, ResolvedSettled;
    SettleSize(b, id, outcome, deadline, fails);
    SettlePaired(b, id, outcome, deadline, fails);
    SettleIds(b, id, outcome, deadline, fails);
    SettleAccepted(b, id, outcome, deadline, fails);
    SettleResolved(b, id, outcome, deadline, fails);
  }

  lemma SettleInv(b: State, id: Id, outcome: Outcome, deadline: int, fails: bool)
    requires Inv(b) && (outcome.AllowedOnce? ==> id !in b.waiters)
    ensures Inv(Settle(b, id, outcome, deadline, fails))
  {
    hide Paired, IdsKnown, SettledOnce, AcceptedOnce, ResolvedSettled, Approved;
    SettleCore(b, id, outcome, deadline, fails);
  }

  // ----- a new request -----

  lemma AdmittedPaired(b: State, w: Waiter)
    requires Paired(b) && IdsKnown(b) && w.key !in b.admissions
    ensures Paired(Admitted(b, w))
  {}

  lemma AdmittedIds(b: State, w: Waiter)
    requires IdsKnown(b) && SettledOnce(b)
    ensures IdsKnown(Admitted(b, w)) && SettledOnce(Admitted(b, w))
  {}

  lemma AdmittedAccepted(b: State, w: Waiter)
    requires IdsKnown(b) && AcceptedOnce(b)
    ensures AcceptedOnce(Admitted(b, w))
  {}

  lemma AdmittedResolved(b: State, w: Waiter)
    requires ResolvedSettled(b) && AllowedApproved(b)
    ensures ResolvedSettled(Admitted(b, w)) && AllowedApproved(Admitted(b, w))
  {}

  lemma AdmittedSize(b: State, w: Waiter)
    requires |b.admissions| < MAX_ADMISSIONS && w.key !in b.admissions
    ensures |Admitted(b, w).admissions| <= MAX_ADMISSIONS
  {
    var c := Admitted(b, w);
    assert c.admissions.Keys == b.admissions.Keys + {w.key};
    assert |c.admissions| == |c.admissions.Keys| && |b.admissions| == |b.admissions.Keys|;
  }

  lemma AdmittedInv(b: State, w: Waiter)
    requires Inv(b) && |b.admissions| < MAX_ADMISSIONS && w.key !in b.admissions
    ensures Inv(Admitted(b, w))
  {
    hide Admitted, Paired, IdsKnown, SettledOnce, AcceptedOnce, ResolvedSettled, AllowedApproved;
    AdmittedSize(b, w);
    AdmittedPaired(b, w);
    AdmittedIds(b, w);
    AdmittedAccepted(b, w);
    AdmittedResolved(b, w);
  }

  lemma RequestInv(b: State, key: Key, fingerprint: Id, refused: bool, r: Option<Reservation>, early: Option<Outcome>)
    requires Inv(b)
    ensures Inv(Request(b, key, fingerprint, refused, r, early))
  {
    hide Inv, Settle;
    if !(refused || b.disposed || |b.admissions| >= MAX_ADMISSIONS || key in b.admissions || r.None?) {
      var w := Waiter(key, r.value.revision, fingerprint, r.value.deadline);
      AdmittedInv(b, w);
      if early.Some? && !early.value.AllowedOnce? {
        SettleInv(Admitted(b, w), b.nextId, early.value, w.deadline, false);
      }
    }
  }

  // ----- a decision -----

  lemma AcceptedGrows(b: State, d: Decision)
    requires AcceptedOnce(b) && d.approval in b.published && Matches(b.published[d.approval], d)
             && d.approval !in b.waiters
    requires forall i :: 0 <= i < |b.accepted| ==> b.accepted[i].approval != d.approval
    ensures AcceptedOnce(b.(accepted := b.accepted + [d]))
  {}

  lemma ApprovedGrows(accepted: seq<Decision>, d: Decision, id: Id)
    requires Approved(accepted, id) || (d.approve && d.approval == id)
    ensures Approved(accepted + [d], id)
  {
    if Approved(accepted, id) {
      var i :| 0 <= i < |accepted| && accepted[i].approval == id && accepted[i].approve;
      assert (accepted + [d])[i] == accepted[i];
    } else {
      assert (accepted + [d])[|accepted|] == d;
    }
  }

  lemma AllowedGrows(b: State, d: Decision, c: State)
    requires AllowedApproved(b) && c.accepted == b.accepted + [d]
    requires || c.settlements == b.settlements
             || (&& |c.settlements| == |b.settlements| + 1 && c.settlements[..|b.settlements|] == b.settlements
                 && c.settlements[|b.settlements|].approval == d.approval
                 && (c.settlements[|b.settlements|].outcome.AllowedOnce? ==> d.approve))
    ensures AllowedApproved(c)
  {
    hide Approved;
    forall i | 0 <= i < |c.settlements| && c.settlements[i].outcome.AllowedOnce?
      ensures Approved(c.accepted, c.settlements[i].approval)
    {
      if i < |b.settlements| { assert c.settlements[i] == b.settlements[i]; }
      ApprovedGrows(b.accepted, d, c.settlements[i].approval);
    }
  }

  lemma AcceptInv(b: State, d: Decision, m: Moment)
    requires Inv(b) && Accepts(b, d, m)
    ensures Inv(Decide(b, d, m))
  {
    var o := if d.approve then AllowedOnce else Rejected;
    var c := Settle(b, d.approval, o, d.expiresAt, m.cleanupFails);
    var e := c.(accepted := b.accepted + [d]);
    assert d.approval in b.published && b.published[d.approval] == b.waiters[d.approval] by {
      hide Paired, SettledOnce, ResolvedSettled, AllowedApproved;
    }
    assert forall i :: 0 <= i < |b.accepted| ==> b.accepted[i].approval != d.approval by {
      hide Paired, SettledOnce, ResolvedSettled, AllowedApproved;
    }
    hide Paired, IdsKnown, SettledOnce, AcceptedOnce, ResolvedSettled, AllowedApproved;
    SettleCore(b, d.approval, o, d.expiresAt, m.cleanupFails);
    AcceptedGrows(c, d);
    AllowedGrows(b, d, e);
    HistoryApart(c, e);
  }

  /** The decisions accepted matter to two parts of the invariant only. */
  lemma HistoryApart(c: State, e: State)
    requires e == c.(accepted := e.accepted) && Paired(c) && IdsKnown(c) && SettledOnce(c) && ResolvedSettled(c)
    ensures Paired(e) && IdsKnown(e) && SettledOnce(e) && ResolvedSettled(e)
  {}

  lemma DecideInv(b: State, d: Decision, m: Moment)
    requires Inv(b)
    ensures Inv(Decide(b, d, m))
  {
    if Accepts(b, d, m) {
      AcceptInv(b, d, m);
    } else if d.approval in b.waiters {
      hide Inv, Settle;
      SettleInv(b, d.approval, Cancelled, b.waiters[d.approval].deadline, m.cleanupFails);
      SettleInv(b, d.approval, Unavailable, b.waiters[d.approval].deadline, m.cleanupFails);
    }
  }

  lemma DeliverPaired(b: State, key: Key, m: Moment)
    requires Paired(b)
    ensures Paired(Deliver(b, key, m))
  {}

  lemma DeliverResolved(b: State, key: Key, m: Moment)
    requires ResolvedSettled(b)
    ensures ResolvedSettled(Deliver(b, key, m))
  {
    var c := Deliver(b, key, m);
    assert forall i :: 0 <= i < |b.delivered| ==> c.delivered[i] == b.delivered[i];
  }

  lemma DeliverSize(b: State, key: Key, m: Moment)
    ensures |Deliver(b, key, m).admissions| <= |b.admissions|
  {
    var c := Deliver(b, key, m);
    if c != b {
      assert c.admissions.Keys == b.admissions.Keys - {key};
      assert |c.admissions| == |c.admissions.Keys| && |b.admissions| == |b.admissions.Keys|;
    }
  }

  lemma DeliverRest(b: State, key: Key, m: Moment)
    requires IdsKnown(b) && SettledOnce(b) && AcceptedOnce(b) && AllowedApproved(b)
    ensures var c := Deliver(b, key, m); IdsKnown(c) && SettledOnce(c) && AcceptedOnce(c) && AllowedApproved(c)
  {
    hide Approved, Matches;
  }

  lemma DeliverInv(b: State, key: Key, m: Moment)
    requires Inv(b)
    ensures Inv(Deliver(b, key, m))
  {
    hide Deliver, Paired, IdsKnown, SettledOnce, AcceptedOnce, ResolvedSettled, AllowedApproved;
    DeliverSize(b, key, m);
    DeliverPaired(b, key, m);
    DeliverResolved(b, key, m);
    DeliverRest(b, key, m);
  }

  // ----- every outcome is delivered once, and in time -----

  lemma SettlePunctual(b: State, id: Id, outcome: Outcome, deadline: int, fails: bool)
    requires Inv(b) && Punctual(b)
    ensures Punctual(Settle(b, id, outcome, deadline, fails))
  {
    hide Matches, Approved, SettledOnce, AllowedApproved, ResolvedSettled;
  }

  lemma AdmittedPunctual(b: State, w: Waiter)
    requires Inv(b) && Punctual(b) && w.key !in b.admissions
    ensures Punctual(Admitted(b, w))
  {
    hide Matches, Approved, SettledOnce, AllowedApproved, ResolvedSettled, Paired;
  }

  /** A decision accepted for a waiter touches no earlier request. */
  lemma AcceptPunctual(b: State, d: Decision, m: Moment)
    requires Inv(b) && Punctual(b) && Accepts(b, d, m)
    ensures Punctual(Decide(b, d, m))
  {
    var o := if d.approve then AllowedOnce else Rejected;
    var c := Settle(b, d.approval, o, d.expiresAt, m.cleanupFails);
    SettlePunctual(b, d.approval, o, d.expiresAt, m.cleanupFails);
    assert Decide(b, d, m) == c.(accepted := b.accepted + [d]);
    hide Inv, Matches;
    DecisionOnTime(b, c, d);
  }

  lemma DecisionOnTime(b: State, c: State, d: Decision)
    requires Punctual(b) && Punctual(c) && c.accepted == b.accepted && c.delivered == b.delivered
             && d.approval in b.waiters
    requires b.waiters[d.approval].key in c.admissions
    requires c.admissions == b.admissions[b.waiters[d.approval].key := c.admissions[b.waiters[d.approval].key]]
    requires var a := c.admissions[b.waiters[d.approval].key];
             a.Resolved? && a.approval == d.approval && a.deadline <= d.expiresAt
    requires c.published == b.published
    ensures Punctual(c.(accepted := b.accepted + [d]))
  {
    var e := c.(accepted := b.accepted + [d]);
    assert DeliveredOnce(e);
    forall k | k in e.admissions && e.admissions[k].Resolved?
      ensures Within(e, e.admissions[k].approval, e.admissions[k].deadline)
    {
      assert Within(c, c.admissions[k].approval, c.admissions[k].deadline);
    }
    forall i | 0 <= i < |e.delivered| && e.delivered[i].outcome.AllowedOnce?
      ensures Within(e, e.delivered[i].approval, e.delivered[i].at + 1)
    {
      assert Within(c, c.delivered[i].approval, c.delivered[i].at + 1);
      assert b.delivered[i].approval !in b.waiters;
    }
  }

  lemma DeliverPunctual(b: State, key: Key, m: Moment)
    requires Punctual(b)
    ensures Punctual(Deliver(b, key, m))
  {
    var c := Deliver(b, key, m);
    if c != b {
      var a := b.admissions[key];
      assert Within(b, a.approval, a.deadline);
      assert forall i :: 0 <= i < |b.delivered| ==> c.delivered[i] == b.delivered[i];
      assert DeliveredOnce(c);
      forall i | 0 <= i < |c.delivered| && c.delivered[i].outcome.AllowedOnce?
        ensures Within(c, c.delivered[i].approval, c.delivered[i].at + 1) && !c.delivered[i].disposed
      {
        if i < |b.delivered| { assert Within(b, b.delivered[i].approval, b.delivered[i].at + 1); }
      }
    }
  }

  lemma {:induction false} SettleAllPunctual(b: State, ids: seq<Id>)
    requires Inv(b) && Punctual(b)
    ensures Punctual(SettleAll(b, ids))
  {
    hide Inv, Settle, Punctual;
    if ids != [] {
      SettleAllInv(b, ids[..|ids| - 1]);
      SettleAllPunctual(b, ids[..|ids| - 1]);
      var c, id := SettleAll(b, ids[..|ids| - 1]), ids[|ids| - 1];
      SettlePunctual(c, id, Unavailable, if id in c.waiters then c.waiters[id].deadline else 0, false);
    }
  }

  lemma RequestPunctual(b: State, key: Key, fingerprint: Id, refused: bool, r: Option<Reservation>,
                        early: Option<Outcome>)
    requires Inv(b) && Punctual(b)
    ensures Punctual(Request(b, key, fingerprint, refused, r, early))
  {
    hide Inv, Settle, Punctual;
    if !(refused || b.disposed || |b.admissions| >= MAX_ADMISSIONS || key in b.admissions || r.None?) {
      var w := Waiter(key, r.value.revision, fingerprint, r.value.deadline);
      AdmittedInv(b, w);
      AdmittedPunctual(b, w);
      if early.Some? && !early.value.AllowedOnce? {
        SettlePunctual(Admitted(b, w), b.nextId, early.value, w.deadline, false);
      }
    }
  }

  lemma DecidePunctual(b: State, d: Decision, m: Moment)
    requires Inv(b) && Punctual(b)
    ensures Punctual(Decide(b, d, m))
  {
    hide Inv, Settle, Punctual, Matches;
    if Accepts(b, d, m) {
      AcceptPunctual(b, d, m);
    } else if d.approval in b.waiters {
      SettlePunctual(b, d.approval, Cancelled, b.waiters[d.approval].deadline, m.cleanupFails);
      SettlePunctual(b, d.approval, Unavailable, b.waiters[d.approval].deadline, m.cleanupFails);
    }
  }

  lemma DisposedPunctual(b: State)
    requires Punctual(b)
    ensures Punctual(b.(disposed := true))
  {
    var c := b.(disposed := true);
    forall id, time | Within(b, id, time) ensures Within(c, id, time) {}
  }

  lemma StepPunctual(b: State, step: Step)
    requires Inv(b) && Punctual(b)
    ensures Punctual(Next(b, step))
  {
    hide Inv, Punctual, Request, Decide, Deliver, SettleAll, Settle;
    match step
    case RequestStep(key, fingerprint, refused, r, early) => RequestPunctual(b, key, fingerprint, refused, r, early);
    case LoseStep(id, outcome, fails) =>
      if id in b.waiters { SettlePunctual(b, id, outcome, b.waiters[id].deadline, fails); }
    case DecideStep(d, m) => DecidePunctual(b, d, m);
    case DeliverStep(key, m) => DeliverPunctual(b, key, m);
    case DisposeStep(ids) =>
      DisposedInv(b);
      DisposedPunctual(b);
      SettleAllPunctual(b.(disposed := true), ids);
  }

  lemma {:induction false} AlwaysPunctual(steps: seq<Step>)
    ensures Punctual(Run(New, steps))
  {
    if steps != [] {
      hide Inv, Punctual, Next;
      Reachable(steps[..|steps| - 1]);
      AlwaysPunctual(steps[..|steps| - 1]);
      StepPunctual(Run(New, steps[..|steps| - 1]), steps[|steps| - 1]);
    }
  }

  lemma {:induction false} SettleAllInv(b: State, ids: seq<Id>)
    requires Inv(b)
    ensures Inv(SettleAll(b, ids))
  {
    hide Inv, Settle;
    if ids != [] {
      SettleAllInv(b, ids[..|ids| - 1]);
      var c, id := SettleAll(b, ids[..|ids| - 1]), ids[|ids| - 1];
      SettleInv(c, id, Unavailable, if id in c.waiters then c.waiters[id].deadline else 0, false);
    }
  }

  lemma DisposedInv(b: State)
    requires Inv(b)
    ensures Inv(b.(disposed := true))
  {
    hide Approved, Matches;
  }

  lemma StepInv(b: State, step: Step)
    requires Inv(b)
    ensures Inv(Next(b, step))
  {
    hide Inv, Request, Decide, Deliver, SettleAll, Settle;
    match step
    case RequestStep(key, fingerprint, refused, r, early) => RequestInv(b, key, fingerprint, refused, r, early);
    case LoseStep(id, outcome, fails) =>
      if !outcome.AllowedOnce? && id in b.waiters { SettleInv(b, id, outcome, b.waiters[id].deadline, fails); }
    case DecideStep(d, m) => DecideInv(b, d, m);
    case DeliverStep(key, m) => DeliverInv(b, key, m);
    case DisposeStep(ids) => DisposedInv(b); SettleAllInv(b.(disposed := true), ids);
  }

  lemma {:induction false} Reachable(steps: seq<Step>)
    ensures Inv(Run(New, steps))
  {
    if steps != [] {
      hide Inv, Next;
      Reachable(steps[..|steps| - 1]);
      StepInv(Run(New, steps[..|steps| - 1]), steps[|steps| - 1]);
    }
  }

  /** In every run: at most 32 requests are admitted, one per job and attempt;
      each waiter settles at most once and each request is answered at most once;
      and a request answered allowed-once was approved by exactly one accepted
      decision, which matches what it published, was answered before its own
      deadline and before that decision expired, and by a broker not disposed. */
  lemma BrokerIsSafe(steps: seq<Step>, n: nat)
    ensures var b := Run(New, steps);
            && |b.admissions| <= MAX_ADMISSIONS && SettledOnce(b)
            && (forall id, id' :: id in b.waiters && id' in b.waiters && b.waiters[id].key == b.waiters[id'].key ==>
                  id == id')
            && (forall i, j :: 0 <= i < j < |b.delivered| ==> b.delivered[i].approval != b.delivered[j].approval)
            && (n < |b.delivered| && b.delivered[n].outcome.AllowedOnce? ==>
                  var id := b.delivered[n].approval;
                  && id in b.published && b.delivered[n].at < b.published[id].deadline && !b.delivered[n].disposed
                  && exists i ::
                       && 0 <= i < |b.accepted| && b.accepted[i].approval == id && b.accepted[i].approve
                       && Matches(b.published[id], b.accepted[i]) && b.delivered[n].at < b.accepted[i].expiresAt
                       && forall j :: 0 <= j < |b.accepted| && b.accepted[j].approval == id ==> j == i)
  {
    Reachable(steps);
    AlwaysPunctual(steps);
    hide Run;
    var b := Run(New, steps);
    if n < |b.delivered| && b.delivered[n].outcome.AllowedOnce? {
      var id := b.delivered[n].approval;
      assert Approved(b.accepted, id);
      assert Within(b, id, b.delivered[n].at + 1);
      var i :| 0 <= i < |b.accepted| && b.accepted[i].approval == id && b.accepted[i].approve;
      assert forall j :: 0 <= j < |b.accepted| && b.accepted[j].approval == id ==> j == i;
    }
  }

  // ----- and exactly when -----

  /** A request is admitted exactly when nothing refuses it, the broker lives, there
      is room, no request of the same job and attempt is under way, and it has a
      reservation; it then waits for what it published, under a fresh id. */
  lemma RequestExactly(b: State, key: Key, fingerprint: Id, refused: bool, r: Option<Reservation>)
    ensures var c := Request(b, key, fingerprint, refused, r, None);
            if !refused && !b.disposed && |b.admissions| < 32 && key !in b.admissions && r.Some? then
              var w := Waiter(key, r.value.revision, fingerprint, r.value.deadline);
              && c.waiters == b.waiters[b.nextId := w] && c.admissions == b.admissions[key := Waiting(b.nextId)]
              && c.published == b.published[b.nextId := w] && c.nextId == b.nextId + 1 && c.disposed == b.disposed
              && c.accepted == b.accepted && c.settlements == b.settlements && c.delivered == b.delivered
            else c == b
  {}

  /** A request that is aborted or loses its authority while it is set up is resolved
      at once; so is one that times out, is aborted or loses its authority later,
      exactly while it waits. */
  lemma LossResolves(b: State, key: Key, fingerprint: Id, r: Reservation, early: Outcome, id: Id, late: Outcome,
                     fails: bool)
    requires early in {Cancelled, Unavailable} && late in {Cancelled, Unavailable}
    ensures !b.disposed && |b.admissions| < 32 && key !in b.admissions ==>
              var c := Request(b, key, fingerprint, false, Some(r), Some(early));
              && c.admissions == b.admissions[key := Resolved(b.nextId, early, r.deadline)]
              && c.settlements == b.settlements + [Settlement(b.nextId, early)] && b.nextId !in c.waiters
    ensures var c := Next(b, LoseStep(id, late, fails));
            if id in b.waiters then
              var o := if fails then Unavailable else late;
              && c.waiters == b.waiters - {id} && c.settlements == b.settlements + [Settlement(id, o)]
              && c.admissions == b.admissions[b.waiters[id].key := Resolved(id, o, b.waiters[id].deadline)]
            else c == b
  {}

  /** A decision is accepted exactly while its waiter waits, in time and with its
      reservation, before the decision itself expires, and if it is for what the
      waiter published; then the request resolves with it, good until the earlier
      of the two deadlines. */
  lemma DecisionResolves(b: State, d: Decision, m: Moment)
    ensures Accepts(b, d, m) <==>
              && d.approval in b.waiters && !m.aborted && !m.lost && m.now < d.expiresAt
              && var w := b.waiters[d.approval];
                 m.now < w.deadline && d.key == w.key && d.revision == w.revision && d.fingerprint == w.fingerprint
    ensures Accepts(b, d, m) ==>
              var c, w := Decide(b, d, m), b.waiters[d.approval];
              var o := if m.cleanupFails then Unavailable else if d.approve then AllowedOnce else Rejected;
              && c.admissions == b.admissions[w.key :=
                   Resolved(d.approval, o, if w.deadline < d.expiresAt then w.deadline else d.expiresAt)]
              && c.waiters == b.waiters - {d.approval} && c.settlements == b.settlements + [Settlement(d.approval, o)]
              && c.accepted == b.accepted + [d] && c.delivered == b.delivered && c.disposed == b.disposed
    ensures !Accepts(b, d, m) && d.approval in b.waiters && !m.aborted && !m.lost
            && m.now < b.waiters[d.approval].deadline ==>
              Decide(b, d, m) == b
    ensures !Accepts(b, d, m) && d.approval in b.waiters
            && (m.aborted || m.lost || m.now >= b.waiters[d.approval].deadline) ==>
              var o := if m.cleanupFails || !m.aborted then Unavailable else Cancelled;
              Decide(b, d, m).settlements == b.settlements + [Settlement(d.approval, o)]
  {}

  /** The outcome handed to the caller: cancelled if the caller aborted; allowed
      exactly if so resolved, with authority, on a live broker and in time; and
      otherwise what it resolved to. */
  lemma OutcomeExactly(b: State, key: Key, m: Moment)
    requires key in b.admissions && b.admissions[key].Resolved?
    ensures var c, a := Deliver(b, key, m), b.admissions[key];
            && c.admissions == b.admissions - {key} && c.waiters == b.waiters && |c.delivered| == |b.delivered| + 1
            && c.delivered[..|b.delivered|] == b.delivered
            && var x := c.delivered[|b.delivered|];
               && x.approval == a.approval && x.at == m.now && x.disposed == b.disposed
               && (m.aborted ==> x.outcome == Cancelled)
               && (x.outcome == AllowedOnce <==>
                     a.outcome == AllowedOnce && !m.aborted && !m.lost && !b.disposed && m.now < a.deadline)
               && (!m.aborted && a.outcome != AllowedOnce ==> x.outcome == a.outcome)
               && (!m.aborted && a.outcome == AllowedOnce && x.outcome != AllowedOnce ==> x.outcome == Unavailable)
  {}

  /** An approval goes through: a waiting request that receives its matching approval
      in time is allowed once, if its caller is told in time and nothing was lost. */
  lemma ApprovalGoesThrough(b: State, d: Decision, m: Moment, m': Moment)
    requires Accepts(b, d, m) && d.approve && !m.cleanupFails && !b.disposed
    requires !m'.aborted && !m'.lost && m'.now < d.expiresAt && m'.now < b.waiters[d.approval].deadline
    ensures var c := Deliver(Decide(b, d, m), b.waiters[d.approval].key, m');
            c.delivered == b.delivered + [Delivery(d.approval, AllowedOnce, m'.now, false)]
  {
    DecisionResolves(b, d, m);
    var c := Decide(b, d, m);
    OutcomeExactly(c, b.waiters[d.approval].key, m');
  }

  /** The broker object. Each method is the code between two awaits. */
  class RemoteApprovalBroker {
    var state: State

    constructor ()
      ensures state == New
    {
      state := New;
    }

    method BeginRequest(key: Key, fingerprint: Id, refused: bool, r: Option<Reservation>, early: Option<Outcome>)
      returns (waiting: bool)
      modifies this
      ensures state == Request(old(state), key, fingerprint, refused, r, early)
      ensures waiting ==> old(state.nextId) in state.waiters && key in state.admissions
    {
      if refused || state.disposed { return false; }
      if |state.admissions| >= MAX_ADMISSIONS || key in state.admissions { return false; }
      if r.None? { return false; }
      var id, w := state.nextId, Waiter(key, r.value.revision, fingerprint, r.value.deadline);
      state := Admitted(state, w);
      if early.Some? && !early.value.AllowedOnce? {
        state := Settle(state, id, early.value, w.deadline, false);
        return false;
      }
      return true;
    }

    method AcceptDecision(d: Decision, m: Moment) returns (accepted: bool)
      modifies this
      ensures state == Decide(old(state), d, m) && accepted == old(Accepts(state, d, m))
    {
      if d.approval !in state.waiters { return false; }
      var w := state.waiters[d.approval];
      if m.aborted {
        state := Settle(state, d.approval, Cancelled, w.deadline, m.cleanupFails);
        return false;
      }
      if m.now >= w.deadline || m.lost {
        state := Settle(state, d.approval, Unavailable, w.deadline, m.cleanupFails);
        return false;
      }
      if d.expiresAt <= m.now || !Matches(w, d) { return false; }
      state := Settle(state, d.approval, if d.approve then AllowedOnce else Rejected, d.expiresAt, m.cleanupFails);
      state := state.(accepted := state.accepted + [d]);
      return true;
    }

    /** request after its await: the last checks, then the admission ends. */
    method FinishRequest(key: Key, m: Moment) returns (outcome: Outcome)
      requires key in state.admissions && state.admissions[key].Resolved?
      modifies this
      ensures state == Deliver(old(state), key, m)
      ensures outcome == state.delivered[|state.delivered| - 1].outcome && key !in state.admissions
    {
      var a := state.admissions[key];
      outcome := a.outcome;
      if m.aborted {
        outcome := Cancelled;
      } else if outcome.AllowedOnce? && (m.lost || state.disposed || m.now >= a.deadline) {
        outcome := Unavailable;
      }
      state := state.(delivered := state.delivered + [Delivery(a.approval, outcome, m.now, state.disposed)]);
      state := state.(admissions := state.admissions - {key});
    }

    /** dispose: every waiter is settled, and none is left. */
    method Dispose() returns (ghost ids: seq<Id>)
      modifies this
      ensures state == Next(old(state), DisposeStep(ids)) && state.disposed && state.waiters == map[]
    {
      state := state.(disposed := true);
      ids := [];
      ghost var start := state;
      while state.waiters.Keys != {}
        invariant state.disposed && state == SettleAll(start, ids)
        decreases |state.waiters.Keys|
      {
        var id :| id in state.waiters.Keys;
        ghost var before := state.waiters.Keys;
        assert (ids + [id])[..|ids|] == ids;
        state := Settle(state, id, Unavailable, state.waiters[id].deadline, false);
        ids := ids + [id];
        assert state.waiters.Keys == before - {id};
      }
      assert state.waiters == map[];
    }
  }
}
