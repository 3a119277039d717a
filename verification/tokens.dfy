/** Exactly when a capability is issued and when it works, on real numbers and
    against the job machine, not only that it is safe when it does. */
module Tokens {
  import opened Common
  import opened JobState
  import opened Decimal
  import opened Binary64
  import opened Deadlines
  import opened Conservative
  import opened JournalTypes
  import opened Authority

  // ----- which states allow which operation -----

  /** The statuses a job may move between. */
  lemma TransitionPairs(a: JobStatus, b: JobStatus)
    ensures CanTransition(a, b) <==>
              || (a == Queued && b in {Dispatched, Cancelled, Expired})
              || (a == Dispatched && b in {Running, Cancelled, Expired})
              || (a == Running && b in {WaitingApproval, Cancelling, Succeeded, Failed, Expired})
              || (a == WaitingApproval && b in {Running, Cancelling, Failed, Expired})
              || (a == Cancelling && b in {Cancelled, Succeeded, Failed, Expired})
    ensures Terminal(a) <==> a in {Succeeded, Failed, Cancelled, Expired}
    ensures Claimed(a) <==> a in {Running, WaitingApproval, Cancelling}
  {}

  /** A snapshot of the attempt in its own mode. */
  predicate SnapshotOf(state: StatePayload, v: Intent) {
    state.currentAttempt == v.owner.attempt && (v.mode.Some? ==> v.mode.value == state.mode)
  }

  /** The observed state allows an operation exactly when the job machine lets a
      claimed job go from there to where the operation takes it; a cancellation
      must be the one the state and the command name, and a remote closure needs a
      job that has ended and a mode to compare. */
  lemma EligibleExactly(state: StatePayload, v: Intent, op: Operation, command: Option<Command>)
    requires op.Native? ==> op.outcome in {Succeeded, Failed}
    ensures StateEligible(state, v, op, command) <==>
              && SnapshotOf(state, v)
              && match op
                 case Native(outcome, _) =>
                   state.status in {Running, WaitingApproval, Cancelling} && CanTransition(state.status, outcome)
                 case Lost(_) =>
                   state.status in {Running, WaitingApproval, Cancelling} && CanTransition(state.status, Failed)
                 case Cancel(revision) =>
                   && state.status == Cancelling && state.cancelRevision == Some(revision) && command.Some?
                   && command.value == Command(v.owner.job, v.owner.attempt, revision, command.value.expiresAt)
                 case ReconcileOp => v.mode.Some? && state.status in {Succeeded, Failed, Cancelled, Expired}
  {}

  // ----- when a check passes -----

  /** The sample is finite, not before the answer, and on clocks still in step. */
  predicate Sound(x: Exchange, now: Clock) {
    && FiniteClock(x.sent) && FiniteClock(x.received) && FiniteClock(now)
    && Value(now.monotonic) >= Value(x.received.monotonic) && Stable(x.sent, now)
  }

  predicate Before(x: Exchange, now: Clock, text: string)
    requires SchemaOk(x.state) && FiniteClock(x.sent) && FiniteClock(now) && Timestamp(text)
  {
    Value(now.monotonic) < Endpoint(x.state, x.sent, text).Floor as real
  }

  /** The integer checks of an admitted timing are these real inequalities. */
  lemma CurrentIsExact(x: Exchange, effect: bool, now: Clock, snapshot: bool, lease: bool)
    requires AdmitTiming(x.state, x.sent, x.received, effect).Some?
    ensures SchemaOk(x.state) && FiniteClock(x.sent) && FiniteClock(x.received)
    ensures var t := AdmitTiming(x.state, x.sent, x.received, effect).value;
            && t.sent == x.sent && t.received == x.received && t.scale >= 0
            && (IsCurrent(t, now, snapshot, lease) <==>
                  && Sound(x, now) && Before(x, now, x.state.expiresAt)
                  && (snapshot ==> Before(x, now, x.state.stateValidUntil))
                  && (lease ==> x.state.leaseExpiresAt.Some? && Before(x, now, x.state.leaseExpiresAt.value)))
            && (IsReconciliationCurrent(t, now) <==> Sound(x, now) && Before(x, now, x.state.stateValidUntil))
  {
    hide AdmitTiming, SchemaOk, Value, Timestamp, Scaled, Pow10, Digits, Endpoint, Agreeing, SafeFloor, StableOffset;
    hide Stable;
    hide Finite;
    AdmissionIsExact(x.state, x.sent, x.received, effect);
    SchemaTimestamps(x.state);
    if FiniteClock(now) { StableExact(x.sent, now, Digits(x.state)); }
  }

  // ----- the token -----

  /** What a call must meet, given the sample before it. */
  predicate CallFits(x: Exchange, b: Binding, deadline: Option<int>, call: Call, first: bool, last: Double)
    requires SchemaOk(x.state) && FiniteClock(x.sent) && Finite(last)
    requires Timestamp(x.state.expiresAt) && Timestamp(x.state.stateValidUntil)
  {
    && call.alive && call.binding == b && (first ==> call.begin)
    && Sound(x, call.now) && Value(call.now.monotonic) >= Value(last)
    && (if b.operation == ReconcileOp then Before(x, call.now, x.state.stateValidUntil)
        else Before(x, call.now, x.state.expiresAt) && (first ==> Before(x, call.now, x.state.stateValidUntil)))
    && (deadline.Some? ==> Value(call.now.monotonic) < deadline.value as real)
  }

  /** An unrevoked capability passes exactly the calls that fit. */
  lemma PassesExactly(x: Exchange, c: Capability, call: Call)
    requires AdmitTiming(x.state, x.sent, x.received, !c.binding.operation.ReconcileOp?) == Some(c.timing)
    requires WellTimed(c)
    ensures SchemaOk(x.state) && FiniteClock(x.sent) && Finite(c.last)
    ensures Timestamp(x.state.expiresAt) && Timestamp(x.state.stateValidUntil)
    ensures Passes(c, call) <==>
              !c.revoked && CallFits(x, c.binding, c.commandDeadline, call, !c.admitted, c.last)
  {
    hide AdmitTiming, SchemaOk, Value, Stable, Endpoint, Finite, StableOffset, Timestamp;
    CurrentIsExact(x, !c.binding.operation.ReconcileOp?, call.now, !c.admitted, false);
    SchemaTimestamps(x.state);
    hide Sound, Before, IsCurrent, IsReconciliationCurrent;
    SoundIsFinite(x, call.now);
  }

  lemma SoundIsFinite(x: Exchange, now: Clock)
    ensures Sound(x, now) ==> FiniteClock(now)
  {}

  /** The deadline a cancel command adds; None stands for none. */
  function CommandDeadline(command: Option<Command>, t: Timing): Option<int> {
    if command.None? then None else CancellationDeadline(t, command.value.expiresAt)
  }

  /** A capability is issued exactly when the journal and the state allow the
      operation, the timing is admitted, a cancel command has a deadline, and the
      first sample would pass; it then holds that timing and no other. */
  lemma IssuesExactly(v: Intent, b: Binding, command: Option<Command>, x: Exchange, alive: bool, now: Clock)
    requires MayIssue(v, b, command, x) && AdmitTiming(x.state, x.sent, x.received, !b.operation.ReconcileOp?).Some?
    ensures SchemaOk(x.state) && FiniteClock(x.sent) && Finite(x.received.monotonic)
    ensures Timestamp(x.state.expiresAt) && Timestamp(x.state.stateValidUntil)
    ensures var t := AdmitTiming(x.state, x.sent, x.received, !b.operation.ReconcileOp?).value;
            var r := Issue(v, b, command, x, alive, now);
            && (r.Some? <==>
                  && (command.Some? ==> CommandDeadline(command, t).Some?)
                  && CallFits(x, b, CommandDeadline(command, t), Call(true, b, alive, now), true, x.received.monotonic))
            && (r.Some? ==>
                  r.value == Capability(t, b, x.state, CommandDeadline(command, t), now.monotonic, false, false))
  {
    hide AdmitTiming, MayIssue, SchemaOk, Value, Stable, Endpoint, Finite, StableOffset, Timestamp;
    hide CancellationDeadline;
    hide CallFits, Current;
    AdmittedIsTimed(x, !b.operation.ReconcileOp?);
    CurrentIsExact(x, !b.operation.ReconcileOp?, now, true, false);
    SchemaTimestamps(x.state);
    var t := AdmitTiming(x.state, x.sent, x.received, !b.operation.ReconcileOp?).value;
    var c := Capability(t, b, x.state, CommandDeadline(command, t), x.received.monotonic, false, false);
    ReceivedIsFinite(x);
    PassesExactly(x, c, Call(true, b, alive, now));
  }

  lemma ReceivedIsFinite(x: Exchange)
    requires FiniteClock(x.received)
    ensures Finite(x.received.monotonic)
  {}

  /** And never otherwise. */
  lemma NotIssued(v: Intent, b: Binding, command: Option<Command>, x: Exchange, alive: bool, now: Clock)
    requires !MayIssue(v, b, command, x) || AdmitTiming(x.state, x.sent, x.received, !b.operation.ReconcileOp?).None?
    ensures Issue(v, b, command, x, alive, now).None?
  {
    hide AdmitTiming, MayIssue, Current;
  }

  /** What the issuer compares: the record it was asked for, and an answer about it. */
  lemma MayIssueExactly(v: Intent, b: Binding, command: Option<Command>, x: Exchange)
    ensures MayIssue(v, b, command, x) <==>
              && (b.operation.Cancel? <==> command.Some?) && v.owner == b.owner && v.version == b.expectedVersion
              && x.matched && x.state.jobId == b.owner.job && x.state.repositoryId == b.owner.repository
              && x.state.requestedAttempt == b.owner.attempt && StateEligible(x.state, v, b.operation, command)
              && match b.operation
                 case ReconcileOp => v.mode.Some?
                 case Cancel(_) => v.phase != Closed
                 case Lost(reason) => v.phase != Closed && v.unavailable == Some(reason)
                 case Native(_, s) => v.phase == Started && v.unavailable == None && v.evidence.Some?
                                      && s >= v.evidence.value.eventSequence
  {
    hide StateEligible;
  }

  /** In any sequence of calls the next succeeds exactly when none before it failed
      and it fits after the last sample. */
  lemma SucceedsExactly(v: Intent, b: Binding, command: Option<Command>, x: Exchange, alive: bool, now: Clock,
                        calls: seq<Call>, i: nat)
    requires Issue(v, b, command, x, alive, now).Some? && i < |calls|
    ensures SchemaOk(x.state) && FiniteClock(x.sent) && Timestamp(x.state.expiresAt)
            && Timestamp(x.state.stateValidUntil)
    ensures var c := Issue(v, b, command, x, alive, now).value;
            var last := if i == 0 then now.monotonic else calls[i - 1].now.monotonic;
            && ((forall j :: 0 <= j < i ==> Succeeds(c, calls, j)) ==> Finite(last))
            && (Succeeds(c, calls, i) <==>
                  && (forall j :: 0 <= j < i ==> Succeeds(c, calls, j))
                  && CallFits(x, b, c.commandDeadline, calls[i], i == 0, last))
  {
    hide AdmitTiming, MayIssue, SchemaOk, Value, Stable, Endpoint, Finite, StableOffset, Timestamp;
    hide CancellationDeadline;
    hide CallFits, Current, Passes, Checked;
    if !MayIssue(v, b, command, x) || AdmitTiming(x.state, x.sent, x.received, !b.operation.ReconcileOp?).None? {
      NotIssued(v, b, command, x, alive, now);
    } else {
      IssuesExactly(v, b, command, x, alive, now);
      var c := Issue(v, b, command, x, alive, now).value;
      hide Issue;
      RevokedIff(c, calls, i);
      var d := After(c, calls[..i]);
      PassesExactly(x, d, calls[i]);
      assert Succeeds(c, calls, i) <==> Passes(d, calls[i]);
    }
  }
}
