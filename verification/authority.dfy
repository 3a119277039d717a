/** The revocable terminal capability
    (packages/harness-plugin/src/runtime/terminal-authority.ts). */
module Authority {
  import opened Common
  import opened JobState
  import opened Decimal
  import opened Binary64
  import opened Deadlines
  import opened Conservative
  import opened JournalTypes

  /** The cancel command a capability for `cancel` is bound to. */
  datatype Command = Command(job: Id, attempt: nat, jobRevision: nat, expiresAt: string)

  /** eligible. */
  predicate Eligible(v: Intent, op: Operation) {
    match op
    case ReconcileOp => v.mode.Some?
    case Cancel(_) => !v.phase.Closed?
    case Lost(reason) => !v.phase.Closed? && v.unavailable == Some(reason)
    case Native(_, s) =>
      v.phase.Started? && v.unavailable.None? && v.evidence.Some? && s >= v.evidence.value.eventSequence
  }

  /** stateEligible. */
  predicate StateEligible(state: StatePayload, v: Intent, op: Operation, command: Option<Command>) {
    && state.currentAttempt == v.owner.attempt && (v.mode.Some? ==> v.mode == Some(state.mode))
    && match op
       case ReconcileOp => v.mode.Some? && Terminal(state.status)
       case Cancel(revision) =>
         && state.status.Cancelling? && state.cancelRevision == Some(revision)
         && command.Some? && command.value.jobRevision == revision
         && command.value.job == v.owner.job && command.value.attempt == v.owner.attempt
       case Lost(_) => state.status.Running? || state.status.Cancelling? || state.status.WaitingApproval?
       case Native(outcome, _) =>
         state.status.Running? || state.status.Cancelling? || (state.status.WaitingApproval? && outcome.Failed?)
  }

  // ----- the capability -----

  datatype Capability = Capability(
    timing: Timing, binding: Binding, state: StatePayload, commandDeadline: Option<int>,
    last: Double, admitted: bool, revoked: bool)

  predicate WellTimed(c: Capability) {
    FiniteClock(c.timing.sent) && FiniteClock(c.timing.received) && c.timing.scale > 0 && Finite(c.last)
  }

  /** One begin or assert: what the caller passes, whether the connection epoch
      and both signals are still live, and what the clock reads. */
  datatype Call = Call(begin: bool, binding: Binding, alive: bool, now: Clock)

  /** checkCurrent. */
  predicate Current(c: Capability, alive: bool, now: Clock, snapshot: bool)
    requires WellTimed(c)
  {
    && alive && FiniteClock(now) && Value(now.monotonic) >= Value(c.last)
    && (if c.binding.operation.ReconcileOp? then IsReconciliationCurrent(c.timing, now)
        else IsCurrent(c.timing, now, snapshot, false))
    && (c.commandDeadline.Some? ==> Value(now.monotonic) < c.commandDeadline.value as real)
  }

  predicate Passes(c: Capability, call: Call)
    requires WellTimed(c)
  {
    && !c.revoked && call.binding == c.binding && (call.begin || c.admitted)
    && Current(c, call.alive, call.now, !c.admitted)
  }

  /** check: a pass records the time and admits; any failure revokes for good. */
  function Checked(c: Capability, call: Call): (d: Capability)
    requires WellTimed(c)
    ensures WellTimed(d) && d == c.(last := d.last, admitted := d.admitted, revoked := d.revoked)
  {
    if Passes(c, call) then c.(last := call.now.monotonic, admitted := true) else c.(revoked := true)
  }

  /** The object whose fields the calls update. */
  class TerminalAuthority {
    const timing: Timing
    const binding: Binding
    const state: StatePayload
    const commandDeadline: Option<int>
    var last: Double
    var admitted: bool
    var revoked: bool

    function View(): Capability
      reads this
    {
      Capability(timing, binding, state, commandDeadline, last, admitted, revoked)
    }

    constructor (c: Capability)
      ensures View() == c
    {
      timing, binding, state, commandDeadline := c.timing, c.binding, c.state, c.commandDeadline;
      last, admitted, revoked := c.last, c.admitted, c.revoked;
    }

    method Check(call: Call) returns (ok: bool)
      requires WellTimed(View())
      modifies this
      ensures View() == old(Checked(View(), call)) && ok == old(Passes(View(), call))
    {
      if revoked || call.binding != binding || (!call.begin && !admitted) {
        revoked := true;
        return false;
      }
      if !Current(View(), call.alive, call.now, !admitted) {
        revoked := true;
        return false;
      }
      last, admitted := call.now.monotonic, true;
      return true;
    }
  }

  // ----- any sequence of calls -----

  function After(c: Capability, calls: seq<Call>): (d: Capability)
    requires WellTimed(c)
    ensures WellTimed(d) && d == c.(last := d.last, admitted := d.admitted, revoked := d.revoked)
  {
    if calls == [] then c else Checked(After(c, calls[..|calls| - 1]), calls[|calls| - 1])
  }

  /** Whether call `i` succeeds. */
  predicate Succeeds(c: Capability, calls: seq<Call>, i: nat)
    requires WellTimed(c) && i < |calls|
  {
    Passes(After(c, calls[..i]), calls[i])
  }

  lemma AfterOneMore(c: Capability, calls: seq<Call>, i: nat)
    requires WellTimed(c) && i < |calls|
    ensures After(c, calls[..i + 1]) == Checked(After(c, calls[..i]), calls[i])
  {
    assert calls[..i + 1][..i] == calls[..i];
  }

  /** The state after `i` calls tells whether all of them succeeded. */
  lemma {:induction false} RevokedIff(c: Capability, calls: seq<Call>, i: nat)
    requires WellTimed(c) && !c.revoked && !c.admitted && i <= |calls|
    ensures var d := After(c, calls[..i]);
            && (d.revoked <==> exists j :: 0 <= j < i && !Succeeds(c, calls, j))
            && (!d.revoked ==>
                  d.admitted == (i > 0) && d.last == (if i > 0 then calls[i - 1].now.monotonic else c.last))
  {
    hide Current, After, WellTimed;
    if i > 0 {
      RevokedIff(c, calls, i - 1);
      AfterOneMore(c, calls, i - 1);
      var d, e := After(c, calls[..i - 1]), After(c, calls[..i]);
      assert e.revoked <==> d.revoked || !Succeeds(c, calls, i - 1);
    } else {
      AfterNone(c, calls);
    }
  }

  lemma AfterNone(c: Capability, calls: seq<Call>)
    requires WellTimed(c)
    ensures After(c, calls[..0]) == c
  {}

  /** The successes of one token form a prefix of its calls. The first is a begin
      inside the snapshot window; sampled times never decrease; each stays below
      the job deadline (below the snapshot deadline instead for reconcile, and
      below the command deadline too for cancel); after one failure none succeeds. */
  lemma LatchedAuthority(c: Capability, calls: seq<Call>, i: nat)
    requires WellTimed(c) && !c.revoked && !c.admitted && i < |calls| && Succeeds(c, calls, i)
    ensures forall j :: 0 <= j < i ==> Succeeds(c, calls, j)
    ensures calls[0].begin && FiniteClock(calls[0].now)
            && Value(calls[0].now.monotonic) < c.timing.snapshotDeadline as real
    ensures FiniteClock(calls[i].now) && Value(calls[i].now.monotonic) >= Value(c.last)
    ensures i > 0 ==>
            FiniteClock(calls[i - 1].now) && Value(calls[i].now.monotonic) >= Value(calls[i - 1].now.monotonic)
    ensures Value(calls[i].now.monotonic)
          < (if c.binding.operation.ReconcileOp? then c.timing.snapshotDeadline else c.timing.jobDeadline) as real
    ensures c.commandDeadline.Some? ==> Value(calls[i].now.monotonic) < c.commandDeadline.value as real
  {
    hide Value, StableOffset, FiniteClock;
    RevokedIff(c, calls, i);
    AfterNone(c, calls);
    assert Succeeds(c, calls, 0);
    LastNeverFalls(c, calls, i);
    if i > 0 { assert Succeeds(c, calls, i - 1); }
  }

  lemma {:induction false} LastNeverFalls(c: Capability, calls: seq<Call>, i: nat)
    requires WellTimed(c) && i <= |calls|
    ensures Value(After(c, calls[..i]).last) >= Value(c.last)
  {
    if i > 0 {
      hide Value, StableOffset;
      LastNeverFalls(c, calls, i - 1);
      AfterOneMore(c, calls, i - 1);
    } else {
      assert calls[..0] == [];
    }
  }

  // ----- issuing -----

  /** What the issuer learned from one state exchange: the payload, the two clock
      readings, whether request and answer belong together on a live epoch. */
  datatype Exchange = Exchange(state: StatePayload, sent: Clock, received: Clock, matched: bool)

  /** The journal record and the observed state allow the operation. */
  predicate MayIssue(v: Intent, b: Binding, command: Option<Command>, x: Exchange) {
    && b.operation.Cancel? == command.Some?
    && v.owner == b.owner && v.version == b.expectedVersion && Eligible(v, b.operation)
    && x.matched && x.state.jobId == b.owner.job && x.state.repositoryId == b.owner.repository
    && x.state.requestedAttempt == b.owner.attempt && StateEligible(x.state, v, b.operation, command)
  }

  /** issue: the timing is admitted once, from this exchange, and never refreshed.
      `now` is the sample of the check made before the token is handed out. */
  function Issue(v: Intent, b: Binding, command: Option<Command>, x: Exchange, alive: bool,
                 now: Clock): (r: Option<Capability>)
    ensures r.Some? ==> WellTimed(r.value) && !r.value.revoked && !r.value.admitted
  {
    if !MayIssue(v, b, command, x) then None
    else
      var timing := AdmitTiming(x.state, x.sent, x.received, !b.operation.ReconcileOp?);
      AdmittedIsTimed(x, !b.operation.ReconcileOp?);
      if timing.None? then None
      else
        var deadline := if command.Some? then CancellationDeadline(timing.value, command.value.expiresAt) else None;
        if command.Some? && deadline.None? then None
        else
          var c := Capability(timing.value, b, x.state, deadline, x.received.monotonic, false, false);
          if Current(c, alive, now, true) then Some(c.(last := now.monotonic)) else None
  }

  lemma AdmittedIsTimed(x: Exchange, effect: bool)
    ensures var t := AdmitTiming(x.state, x.sent, x.received, effect);
            t.Some? ==> && t.value.sent == x.sent && t.value.received == x.received && t.value.scale > 0
                        && FiniteClock(x.sent) && FiniteClock(x.received)
  {
    hide AdmitTiming, Pow10, SchemaOk, Finite, Value;
    AdmissionIsExact(x.state, x.sent, x.received, effect);
  }

  /** However often a token is used, it never works within a second of the true
      end of the job (of the snapshot, for reconcile) or of the cancel command. */
  lemma AuthorityIsConservative(v: Intent, b: Binding, command: Option<Command>, x: Exchange, alive: bool, now: Clock,
                                calls: seq<Call>, i: nat, stamp: real)
    requires Issue(v, b, command, x, alive, now).Some? && StampedBetween(x.sent, x.received, stamp)
    requires i < |calls| && Succeeds(Issue(v, b, command, x, alive, now).value, calls, i)
    ensures SchemaOk(x.state) && FiniteClock(calls[i].now)
    ensures Value(calls[i].now.monotonic) + 1000.0
          < TrueInstant(x.state, stamp, if b.operation.ReconcileOp? then x.state.stateValidUntil else x.state.expiresAt)
    ensures command.Some? ==>
              && Timestamp(command.value.expiresAt)
              && Value(calls[i].now.monotonic) + 1000.0 < TrueInstant(x.state, stamp, command.value.expiresAt)
  {
    hide AdmitTiming, MayIssue, Value, SchemaOk, Timestamp, TrueInstant, Endpoint, Scaled, Pow10, Digits, Finite;
    hide Succeeds, CancellationDeadline;
    var c := Issue(v, b, command, x, alive, now).value;
    var effect := !b.operation.ReconcileOp?;
    var t := calls[i].now;
    LatchedAuthority(c, calls, i);
    AdmissionIsExact(x.state, x.sent, x.received, effect);
    SchemaTimestamps(x.state);
    BelowEndpoint(x.state, x.sent, x.received, stamp, if effect then x.state.expiresAt else x.state.stateValidUntil,
                  Value(t.monotonic));
    if command.Some? {
      DeadlineNeedsTimestamp(c.timing, command.value.expiresAt);
      CancellationIsConservative(x.state, x.sent, x.received, effect, stamp, command.value.expiresAt,
                                 Value(t.monotonic));
    }
  }

  lemma DeadlineNeedsTimestamp(t: Timing, text: string)
    requires CancellationDeadline(t, text).Some?
    ensures Timestamp(text)
  {}
}
