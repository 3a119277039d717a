/** What holds of every run of the connector's journal. */
module JournalTheorems {
  import opened Common
  import opened Deadlines
  import opened JournalTypes
  import opened Journal
  import opened JournalInvariant
  import opened Inbound
  import opened JournalRuns

  lemma GrowsTransitive(a: Tables, b: Tables, c: Tables)
    requires Grows(a, b) && Grows(b, c)
    ensures Grows(a, c)
  {
    hide Delivered;
  }

  lemma GrowsReflexive(t: Tables)
    ensures Grows(t, t)
  {}

  lemma EmptyInv()
    ensures Inv(Empty)
  {}

  /** Any run, with any arguments, keeps the event tables and undoes nothing. */
  lemma {:induction false} RunsOnlyGrow(t: Tables, steps: seq<Step>)
    requires EventsOk(t)
    ensures EventsOk(Run(t, steps)) && Grows(t, Run(t, steps))
  {
    hide EventsOk, Grows, Apply;
    if steps == [] {
      GrowsReflexive(t);
    } else {
      var init := steps[..|steps| - 1];
      RunsOnlyGrow(t, init);
      StepKeeps(Run(t, init), steps[|steps| - 1]);
      GrowsTransitive(t, Run(t, init), Run(t, steps));
    }
  }

  /** From a sound store, any tame run keeps it sound. */
  lemma {:induction false} RunsStaySound(t: Tables, steps: seq<Step>)
    requires Inv(t) && Tame(t, steps)
    ensures Inv(Run(t, steps))
  {
    hide Inv, Apply, Claims;
    if steps != [] {
      var n := |steps| - 1;
      assert steps == steps[..n] + [steps[n]];
      TameOneMore(t, steps[..n], steps[n]);
      hide Tame;
      RunsStaySound(t, steps[..n]);
      StepSound(Run(t, steps[..n]), steps[n]);
    }
  }

  /** A step that claims a journal status leaves the journal unreadable. */
  lemma ClaimCorrupts(t: Tables, step: Step)
    requires Readable(t) && Claims(t, step)
    ensures !Readable(Apply(t, step))
  {
    hide Readable, JournalStatus, MapJob;
    MapJobKeepsIff(t, step.job, step.attempt, step.mapped, step.status);
  }

  predicate ReadableThroughout(t: Tables, steps: seq<Step>) {
    forall i :: 0 <= i <= |steps| ==> Readable(Run(t, steps[..i]))
  }

  /** The journal reads without corruption at every moment of a run if and only
      if no mapJob of the run writes one of the journal's own statuses. */
  lemma AlwaysReadable(steps: seq<Step>)
    ensures ReadableThroughout(Empty, steps) <==> Tame(Empty, steps)
  {
    hide Readable, Apply, Claims;
    if Tame(Empty, steps) {
      forall i | 0 <= i <= |steps| ensures Readable(Run(Empty, steps[..i])) {
        TamePrefix(Empty, steps, i);
        ReadableAt(steps[..i]);
      }
    } else {
      var i :| 0 <= i < |steps| && Claims(Run(Empty, steps[..i]), steps[i]);
      assert steps[..i + 1][..i] == steps[..i];
      if Readable(Run(Empty, steps[..i])) { ClaimCorrupts(Run(Empty, steps[..i]), steps[i]); }
    }
  }

  lemma TamePrefix(t: Tables, steps: seq<Step>, i: nat)
    requires Tame(t, steps) && i <= |steps|
    ensures Tame(t, steps[..i])
  {
    hide Claims, Run;
    assert forall j :: 0 <= j < i ==> steps[..i][..j] == steps[..j] && steps[..i][j] == steps[j];
  }

  lemma ReadableAt(steps: seq<Step>)
    requires Tame(Empty, steps)
    ensures Readable(Run(Empty, steps))
  {
    EmptyInv();
    RunsStaySound(Empty, steps);
    hide Readable, EventsOk;
  }

  // ----- first writer wins -----

  /** A commit against a closed attempt that does not throw returns the record
      that closed it, and changes nothing. */
  lemma CommitReturnsWinner(t: Tables, p: Proposal, state: StatePayload, granted: bool, e: OutInput)
    requires Readable(t) && KeyOf(p.binding.owner) in t.terminals && Commit(t, p, state, granted, e).Done?
    ensures var c := Commit(t, p, state, granted, e);
            c.tables == t && Winner(c.value) == t.terminals[KeyOf(p.binding.owner)] && !c.value.Committed?
  {
    hide Readable, RecordOk, ProposalStatus, OperationFits, EventFits, Above, IdUsed, AddTerminal, AddOutbound;
    MarkedIsClosed(t, KeyOf(p.binding.owner));
  }

  /** A commit goes ahead only on a readable journal. */
  lemma CommitReads(t: Tables, p: Proposal, state: StatePayload, granted: bool, e: OutInput)
    requires Commit(t, p, state, granted, e).Done?
    ensures Readable(t)
  {
    hide Readable, RecordOk, ProposalStatus, OperationFits, EventFits, Above, IdUsed, AddTerminal, AddOutbound;
  }

  lemma MarkedIsClosed(t: Tables, k: Key)
    requires Readable(t) && k in t.terminals
    ensures k in t.intents && t.intents[k].phase.Closed?
  {
    hide RowsOk, ActiveOwned, GenerationsOwned, StatusesOwned;
  }

  /** The first terminal record of an attempt, local or remote, is its last: no
      later run changes it, and every later commit that succeeds returns it. No
      condition is put on either run. */
  lemma FirstWriterWins(steps: seq<Step>, later: seq<Step>, k: Key, p: Proposal, state: StatePayload, granted: bool,
                        e: OutInput)
    requires k in Run(Empty, steps).terminals && KeyOf(p.binding.owner) == k
    ensures var t := Run(Run(Empty, steps), later);
            && k in t.terminals && t.terminals[k] == Run(Empty, steps).terminals[k]
            && (Commit(t, p, state, granted, e).Done? ==>
                  Winner(Commit(t, p, state, granted, e).value) == t.terminals[k])
  {
    hide EventsOk, ReceiptsKept, CompletionsKept, Readable, Commit, Run;
    EmptyInv();
    RunsOnlyGrow(Empty, steps);
    RunsOnlyGrow(Run(Empty, steps), later);
    var t := Run(Run(Empty, steps), later);
    if Commit(t, p, state, granted, e).Done? {
      CommitReads(t, p, state, granted, e);
      CommitReturnsWinner(t, p, state, granted, e);
    }
  }

  // ----- at most one terminal message -----

  predicate About(b: Body, k: Key) { (b.JobEvent? || b.JobCancelled?) && (b.job, b.attempt) == k }

  /** A stored message that would close or fail the attempt at the server. */
  predicate TerminalFor(row: OutRow, k: Key) {
    Parses(row.payload) && ForbiddenGeneric(row.payload.body) && About(row.payload.body, k)
  }

  /** Such a message but for its expiry, which renewDelivery supplies. */
  predicate Dormant(row: OutRow, k: Key) {
    && !Parses(row.payload) && row.payload.shaped && row.payload.sentAt.Some?
    && ForbiddenGeneric(row.payload.body) && About(row.payload.body, k)
  }

  function TerminalRows(t: Tables, k: Key): set<nat> { set s | s in t.outbound && TerminalFor(t.outbound[s], k) }

  /** The local marker of the attempt cites the row. */
  predicate CitedBy(t: Tables, k: Key, s: nat) {
    k in t.terminals && t.terminals[k].Local? && t.terminals[k].outSequence == s
  }

  /** Every terminal message for the attempt was there `before`, or is the one
      its local marker cites. */
  predicate OnlyTheMarker(t: Tables, k: Key, before: set<nat>) {
    forall s :: s in t.outbound && TerminalFor(t.outbound[s], k) ==>
      s in before || CitedBy(t, k, s)
  }

  /** The step renews a dormant terminal message for the attempt that is not one
      of the rows `before`, with a text the schema accepts and a time after the
      message was sent; a profiled row must also be the message it says it is. */
  predicate Awakens(t: Tables, step: Step, k: Key, before: set<nat>) {
    && step.RenewStep? && step.accepted
    && step.sequence in t.outbound && step.sequence !in before
    && var row := t.outbound[step.sequence];
       && Dormant(row, k) && row.payload.sentAt.value < step.time
       && (step.sequence in t.profiles ==>
             row.payload.messageId == row.messageId && row.payload.sequence == step.sequence)
  }

  lemma EnqueueAddsNone(t: Tables, e: OutInput, k: Key, before: set<nat>)
    requires k in t.intents && OnlyTheMarker(t, k, before)
    ensures OnlyTheMarker(After(t, EnqueueEvent(t, e)), k, before)
  {
    hide Readable, RequestOk, Above, IdUsed;
  }

  /** What a commit that changes anything adds. */
  lemma CommitShape(t: Tables, p: Proposal, state: StatePayload, granted: bool, e: OutInput)
    requires Commit(t, p, state, granted, e).Done? && Commit(t, p, state, granted, e).tables != t
    ensures var c := Commit(t, p, state, granted, e);
            && c.value.Committed? && c.value.winner.Local? && c.tables == AddOutbound(AddTerminal(t, c.value.winner), e)
            && c.value.winner.outSequence == e.sequence && c.value.winner.predecessor.owner == p.binding.owner
            && e.payload.body == p.payload && ProposalStatus(p).Some?
  {
    hide Readable, RecordOk, ProposalStatus, OperationFits, Above, IdUsed, AddTerminal, AddOutbound, Parses;
  }

  lemma MarkerAndMessage(t: Tables, r: TerminalRecord, e: OutInput, k: Key, before: set<nat>)
    requires OnlyTheMarker(t, k, before) && RecordsGrow(t, AddOutbound(AddTerminal(t, r), e))
    requires r.Local? && r.outSequence == e.sequence && About(e.payload.body, KeyOf(r.predecessor.owner))
    ensures OnlyTheMarker(AddOutbound(AddTerminal(t, r), e), k, before)
  {
    hide Parses, ForbiddenGeneric;
  }

  lemma CommitAddsTheMarker(t: Tables, p: Proposal, state: StatePayload, granted: bool, e: OutInput, k: Key,
                            before: set<nat>)
    requires k in t.intents && OnlyTheMarker(t, k, before)
    ensures OnlyTheMarker(After(t, Commit(t, p, state, granted, e)), k, before)
  {
    hide Readable, Commit, OnlyTheMarker, RecordsGrow, AddOutbound, AddTerminal, ProposalStatus;
    CommitRecords(t, p, state, granted, e);
    var c := Commit(t, p, state, granted, e);
    if c.Done? && c.tables != t {
      CommitShape(t, p, state, granted, e);
      ProposalIsAboutOwner(p);
      MarkerAndMessage(t, c.value.winner, e, k, before);
    }
  }

  lemma ProposalIsAboutOwner(p: Proposal)
    requires ProposalStatus(p).Some?
    ensures About(p.payload, KeyOf(p.binding.owner)) && ForbiddenGeneric(p.payload)
  {}

  /** A renewal touches the row it names and no other. */
  lemma RenewFrame(t: Tables, s: nat, time: int, text: Id, accepted: bool)
    ensures var t' := After(t, Renew(t, s, time, text, accepted));
            && t'.terminals == t.terminals
            && (t' == t || (s in t.outbound && s in t'.outbound && t'.outbound == t.outbound[s := t'.outbound[s]]))
  {
    hide RequestOk;
  }

  /** And makes it a new terminal message for the attempt exactly when it awakens it. */
  lemma RenewedRow(t: Tables, step: Step, k: Key, before: set<nat>)
    requires step.RenewStep? && step.sequence in t.outbound && step.sequence !in before
    ensures var row, row' := t.outbound[step.sequence], Apply(t, step).outbound[step.sequence];
            && (Awakens(t, step, k, before) ==> TerminalFor(row', k) && !TerminalFor(row, k))
            && (TerminalFor(row', k) ==> Awakens(t, step, k, before) || TerminalFor(row, k))
  {
    hide About, ForbiddenGeneric;
  }

  /** Every local marker cites a row that is still its message. */
  predicate MarkersCite(t: Tables) {
    forall k :: k in t.terminals && t.terminals[k].Local? ==> Cited(t, t.terminals[k])
  }

  lemma ReadableCites(t: Tables)
    requires Readable(t)
    ensures MarkersCite(t)
  {
    hide ActiveOwned, GenerationsOwned, StatusesOwned, RecordOk, IntentOk, MappingOk;
  }

  lemma CitesKept(t: Tables, t': Tables)
    requires MarkersCite(t) && CitationsKept(t, t')
    requires forall k :: k in t'.terminals && t'.terminals[k].Local? ==>
             k in t.terminals && t'.terminals[k] == t.terminals[k]
    ensures MarkersCite(t')
  {
    hide Parses;
  }

  lemma CommitCites(t: Tables, p: Proposal, state: StatePayload, granted: bool, e: OutInput)
    requires MarkersCite(t)
    ensures MarkersCite(After(t, Commit(t, p, state, granted, e)))
  {
    hide Readable, MarkersCite, Commit;
    if Commit(t, p, state, granted, e).Done? {
      CommitReads(t, p, state, granted, e);
      CommitKeeps(t, p, state, granted, e);
      ReadableCites(After(t, Commit(t, p, state, granted, e)));
    }
  }

  lemma ReconcileCites(t: Tables, b: Binding, state: StatePayload, granted: bool)
    requires MarkersCite(t)
    ensures MarkersCite(After(t, Reconcile(t, b, state, granted)))
  {
    hide Readable, RecordOk, Cited;
    var t' := After(t, Reconcile(t, b, state, granted));
    CitationsSame(t, t');
    if t' != t { RemoteOnly(t, t', b, state, granted); }
    hide Reconcile, CitationsKept;
    CitesKept(t, t');
  }

  lemma RemoteOnly(t: Tables, t': Tables, b: Binding, state: StatePayload, granted: bool)
    requires t' == After(t, Reconcile(t, b, state, granted))
    ensures forall k :: k in t'.terminals && t'.terminals[k].Local? ==>
            k in t.terminals && t'.terminals[k] == t.terminals[k]
  {
    hide Readable, RecordOk;
  }

  lemma SameMarkersCite(t: Tables, t': Tables)
    requires MarkersCite(t) && CitationsKept(t, t') && t'.terminals == t.terminals
    ensures MarkersCite(t')
  {
    hide CitationsKept, Cited;
    CitesKept(t, t');
  }

  lemma OtherStepsKeepMarkers(t: Tables, step: Step)
    requires !step.CommitStep? && !step.ReconcileStep?
    ensures Apply(t, step).terminals == t.terminals
  {
    hide Commit, Reconcile, Readable, Taken, Advanced, RequestOk, Parses, ForbiddenGeneric, Above, IdUsed, Touches;
    hide PrepareReceipt, MessageKnown, Proving, Delivered;
  }

  lemma OtherStepsKeepCitations(t: Tables, step: Step)
    requires !step.CommitStep? && !step.ReconcileStep?
    ensures CitationsKept(t, Apply(t, step))
  {
    hide CitationsKept, Prepare, Advance, Commit, Reconcile, EnqueueEvent, Renew, AcknowledgeThrough, AcknowledgeEvent;
    hide MapJob, RecordInbound, ReplaceInbound, MarkDelivered;
    var t' := Apply(t, step);
    match step
    case PrepareStep(offer, session, id, generation) =>
      PrepareFrame(t, offer, session, id, generation);
      CitationsSame(t, t');
    case AdvanceStep(owner, version, x) => AdvanceFrame(t, owner, version, x); CitationsSame(t, t');
    case MapStep(job, attempt, session, status) => MapFrame(t, job, attempt, session, status); CitationsSame(t, t');
    case EnqueueStep(e) => EnqueueOutbound(t, e);
    case RenewStep(s, time, text, accepted) => RenewOutbound(t, s, time, text, accepted);
    case AckThroughStep(s, c) => AcknowledgeCitations(t, s, c, 0);
    case AckEventStep(id) => AckEventOutbound(t, id);
    case RecordStep(id, s, body, request) => RecordFrame(t, id, s, body, request); CitationsSame(t, t');
    case ReplaceStep(previous, id, s, body, request) =>
      ReplaceFrame(t, previous, id, s, body, request);
      CitationsSame(t, t');
    case DeliverStep(s) => DeliverFrame(t, s); CitationsSame(t, t');
  }

  /** No step, with any arguments, leaves a marker without its message. */
  lemma StepCites(t: Tables, step: Step)
    requires MarkersCite(t)
    ensures MarkersCite(Apply(t, step))
  {
    hide MarkersCite, CitationsKept, Prepare, Advance, Commit, Reconcile, EnqueueEvent, Renew, AcknowledgeThrough;
    hide AcknowledgeEvent, MapJob, RecordInbound, ReplaceInbound, MarkDelivered;
    match step
    case CommitStep(p, state, granted, e) => CommitCites(t, p, state, granted, e);
    case ReconcileStep(b, state, granted) => ReconcileCites(t, b, state, granted);
    case _ =>
      OtherStepsKeepMarkers(t, step);
      OtherStepsKeepCitations(t, step);
      SameMarkersCite(t, Apply(t, step));
  }

  lemma {:induction false} AlwaysCites(t: Tables, steps: seq<Step>)
    requires MarkersCite(t)
    ensures MarkersCite(Run(t, steps))
  {
    hide MarkersCite, Apply;
    if steps != [] {
      AlwaysCites(t, steps[..|steps| - 1]);
      StepCites(Run(t, steps[..|steps| - 1]), steps[|steps| - 1]);
    }
  }

  /** Nor does any step drop an intent. */
  lemma StepRecords(t: Tables, step: Step)
    ensures RecordsGrow(t, Apply(t, step))
  {
    hide RecordsGrow, Commit, EnqueueEvent, Renew, AcknowledgeThrough, AcknowledgeEvent;
    match step
    case CommitStep(p, state, granted, e) => CommitRecords(t, p, state, granted, e);
    case EnqueueStep(e) => EnqueueInbound(t, e);
    case RenewStep(s, time, text, accepted) => RenewInbound(t, s, time, text, accepted);
    case AckThroughStep(s, c) => AckThroughFrame(t, s, c);
    case AckEventStep(id) => AckEventInbound(t, id);
    case _ => QuietStep(t, step);
  }

  lemma {:induction false} IntentStays(t: Tables, steps: seq<Step>, k: Key)
    requires k in t.intents
    ensures k in Run(t, steps).intents
  {
    hide Apply;
    if steps != [] {
      IntentStays(t, steps[..|steps| - 1], k);
      StepRecords(Run(t, steps[..|steps| - 1]), steps[|steps| - 1]);
    }
  }

  /** A row the marker cites is a message in force, so no renewal awakens it. */
  lemma CitedIsAwake(t: Tables, step: Step, k: Key, before: set<nat>)
    requires MarkersCite(t) && step.RenewStep? && CitedBy(t, k, step.sequence)
    ensures !Awakens(t, step, k, before)
  {
    hide About, ForbiddenGeneric;
  }

  lemma OneRowRewritten(t: Tables, t': Tables, s: nat, k: Key, before: set<nat>)
    requires OnlyTheMarker(t, k, before) && t'.terminals == t.terminals
    requires s in t.outbound && s in t'.outbound && t'.outbound == t.outbound[s := t'.outbound[s]]
    ensures OnlyTheMarker(t', k, before) <==> s in before || CitedBy(t, k, s) || !TerminalFor(t'.outbound[s], k)
  {
    hide TerminalFor;
  }

  /** A renewal keeps the marker's message the only new one if and only if it
      does not awaken another. */
  lemma RenewKeepsIff(t: Tables, step: Step, k: Key, before: set<nat>)
    requires MarkersCite(t) && step.RenewStep? && OnlyTheMarker(t, k, before)
    ensures OnlyTheMarker(Apply(t, step), k, before) <==> !Awakens(t, step, k, before)
  {
    var s, t' := step.sequence, Apply(t, step);
    RenewFrame(t, s, step.time, step.text, step.accepted);
    assert t' == After(t, Renew(t, s, step.time, step.text, step.accepted)) by { hide Renew; }
    if s in t.outbound && s !in before { RenewedRow(t, step, k, before); }
    hide Renew, Apply, MarkersCite, TerminalFor, Dormant, OnlyTheMarker;
    if CitedBy(t, k, s) { CitedIsAwake(t, step, k, before); }
    if t' != t {
      OneRowRewritten(t, t', s, k, before);
      if TerminalFor(t.outbound[s], k) && s !in before { assert CitedBy(t, k, s) by { RowCited(t, k, s, before); } }
    }
  }

  lemma RowCited(t: Tables, k: Key, s: nat, before: set<nat>)
    requires OnlyTheMarker(t, k, before) && s in t.outbound && s !in before && TerminalFor(t.outbound[s], k)
    ensures CitedBy(t, k, s)
  {
    hide TerminalFor;
  }

  lemma MarksAddNone(t: Tables, t': Tables, k: Key, before: set<nat>)
    requires OnlyTheMarker(t, k, before) && OnlyMarks(t, t') && t'.terminals == t.terminals
    ensures OnlyTheMarker(t', k, before)
  {
    forall s | s in t'.outbound && TerminalFor(t'.outbound[s], k) ensures TerminalFor(t.outbound[s], k) {}
  }

  lemma QuietAddsNone(t: Tables, t': Tables, k: Key, before: set<nat>)
    requires OnlyTheMarker(t, k, before) && t'.outbound == t.outbound && RecordsGrow(t, t')
    ensures OnlyTheMarker(t', k, before)
  {}

  /** Of all steps only an awakening adds a terminal message the marker does not cite. */
  lemma StepKeepsIff(t: Tables, step: Step, k: Key, before: set<nat>)
    requires MarkersCite(t) && k in t.intents && OnlyTheMarker(t, k, before)
    ensures OnlyTheMarker(Apply(t, step), k, before) <==> !Awakens(t, step, k, before)
  {
    hide MarkersCite, OnlyTheMarker, RecordsGrow, OnlyMarks, SameEvents, OnlyInbound;
    hide Prepare, Advance, Commit, Reconcile, EnqueueEvent, Renew, AcknowledgeThrough, AcknowledgeEvent, MapJob;
    hide RecordInbound, ReplaceInbound;
    var t' := Apply(t, step);
    match step
    case CommitStep(p, state, granted, e) => CommitAddsTheMarker(t, p, state, granted, e, k, before);
    case EnqueueStep(e) => EnqueueAddsNone(t, e, k, before);
    case RenewStep(_, _, _, _) => RenewKeepsIff(t, step, k, before);
    case AckThroughStep(s, c) =>
      ThroughOnlyMarks(t, s, c); ThroughKeepsMarkers(t, s, c); MarksAddNone(t, t', k, before);
    case AckEventStep(id) => EventOnlyMarks(t, id); EventKeepsMarkers(t, id); MarksAddNone(t, t', k, before);
    case _ =>
      QuietStep(t, step);
      QuietAddsNone(t, t', k, before);
  }

  lemma ThroughKeepsMarkers(t: Tables, s: nat, c: Correlation)
    ensures After(t, AcknowledgeThrough(t, s, c)).terminals == t.terminals
  {
    hide Above;
  }

  lemma EventKeepsMarkers(t: Tables, id: Id)
    ensures After(t, AcknowledgeEvent(t, id)).terminals == t.terminals
  {}

  lemma QuietStep(t: Tables, step: Step)
    requires !step.CommitStep? && !step.EnqueueStep? && !step.RenewStep? && !step.AckThroughStep? && !step.AckEventStep?
    ensures Apply(t, step).outbound == t.outbound && RecordsGrow(t, Apply(t, step))
  {
    hide RecordsGrow;
    hide Prepare, Advance, Reconcile, MapJob, RecordInbound, ReplaceInbound;
    match step
    case PrepareStep(offer, session, id, generation) => PrepareFrame(t, offer, session, id, generation);
    case AdvanceStep(owner, version, x) => AdvanceFrame(t, owner, version, x);
    case ReconcileStep(b, state, granted) =>
      ReconcileFrame(t, b, state, granted); ReconcileRecords(t, b, state, granted);
    case MapStep(job, attempt, session, status) => MapFrame(t, job, attempt, session, status);
    case RecordStep(id, s, body, request) => RecordFrame(t, id, s, body, request); InboundRecords(t, Apply(t, step));
    case ReplaceStep(previous, id, s, body, request) =>
      ReplaceFrame(t, previous, id, s, body, request); InboundRecords(t, Apply(t, step));
    case DeliverStep(s) => InboundRecords(t, Apply(t, step));
  }

  lemma InboundRecords(t: Tables, t': Tables)
    requires OnlyInbound(t, t')
    ensures t'.outbound == t.outbound && RecordsGrow(t, t')
  {}

  /** At every moment of the run, from the start to the end. */
  predicate AlwaysOnlyTheMarker(t: Tables, steps: seq<Step>, k: Key, before: set<nat>) {
    forall i :: 0 <= i <= |steps| ==> OnlyTheMarker(Run(t, steps[..i]), k, before)
  }

  predicate NeverAwakens(t: Tables, steps: seq<Step>, k: Key, before: set<nat>) {
    forall i :: 0 <= i < |steps| ==> !Awakens(Run(t, steps[..i]), steps[i], k, before)
  }

  lemma OneMoreMoment(t: Tables, steps: seq<Step>, step: Step, k: Key, before: set<nat>)
    ensures AlwaysOnlyTheMarker(t, steps + [step], k, before)
       <==> AlwaysOnlyTheMarker(t, steps, k, before) && OnlyTheMarker(Run(t, steps + [step]), k, before)
    ensures AlwaysOnlyTheMarker(t, steps, k, before) ==> OnlyTheMarker(Run(t, steps), k, before)
  {
    hide OnlyTheMarker, Run;
    var all := steps + [step];
    assert forall i :: 0 <= i <= |steps| ==> all[..i] == steps[..i];
    assert all[..|all|] == all && steps[..|steps|] == steps;
  }

  lemma OneMoreStep(t: Tables, steps: seq<Step>, step: Step, k: Key, before: set<nat>)
    ensures NeverAwakens(t, steps + [step], k, before)
       <==> NeverAwakens(t, steps, k, before) && !Awakens(Run(t, steps), step, k, before)
  {
    hide Awakens, Run;
    var all := steps + [step];
    assert forall i :: 0 <= i < |steps| ==> all[..i] == steps[..i] && all[i] == steps[i];
    assert all[..|steps|] == steps && all[|steps|] == step;
  }

  /** Once an intent is prepared, the only terminal message for its attempt that
      ever enters the outbox is the one its local marker cites, at every moment
      of a run, if and only if no step of the run awakens a dormant message. */
  lemma {:induction false} AtMostOneTerminalMessage(t: Tables, steps: seq<Step>, k: Key)
    requires Readable(t) && k in t.intents
    ensures AlwaysOnlyTheMarker(t, steps, k, TerminalRows(t, k)) <==> NeverAwakens(t, steps, k, TerminalRows(t, k))
  {
    var before := TerminalRows(t, k);
    StartsWithItsRows(t, k);
    hide Readable, MarkersCite, Apply, Awakens, OnlyTheMarker, TerminalRows;
    if steps != [] {
      var n := |steps| - 1;
      var init := steps[..n];
      assert steps == init + [steps[n]];
      AtMostOneTerminalMessage(t, init, k);
      OneMoreMoment(t, init, steps[n], k, before);
      OneMoreStep(t, init, steps[n], k, before);
      ReadableCites(t);
      AlwaysCites(t, init);
      IntentStays(t, init, k);
      hide AlwaysOnlyTheMarker, NeverAwakens;
      if OnlyTheMarker(Run(t, init), k, before) { StepKeepsIff(Run(t, init), steps[n], k, before); }
    }
  }

  lemma StartsWithItsRows(t: Tables, k: Key)
    ensures OnlyTheMarker(t, k, TerminalRows(t, k))
  {}

  /** The condition is needed: from any store with the attempt prepared, a generic
      enqueue of a message without expiry and one renewal put a second kind of
      terminal message in the outbox, past the guard of enqueueEvent. */
  lemma RenewalAwakens(t: Tables, k: Key, id: Id, s: nat)
    requires k in t.intents && k !in t.terminals && 1 <= s <= MAX_SAFE && Above(t, s) && !IdUsed(t, id)
    ensures var e :=
            OutInput(id, s,
                     Payload(true, id, s, Random(0), Some(0), NoExpiry,
                             JobEvent(k.0, k.1, "job.succeeded", true, Minimized(0))), false);
            var stored := EnqueueEvent(t, e);
            && stored.Done? && Dormant(stored.tables.outbound[s], k)
            && var renewed := Renew(stored.tables, s, 1, 0, true);
               renewed.Done? && !OnlyTheMarker(renewed.tables, k, TerminalRows(t, k))
  {
    var e :=
      OutInput(id, s,
               Payload(true, id, s, Random(0), Some(0), NoExpiry,
                       JobEvent(k.0, k.1, "job.succeeded", true, Minimized(0))), false);
    var t1 := AddOutbound(t, e);
    assert EnqueueEvent(t, e) == Done(t1, ()) by { hide Readable, Above, IdUsed; }
    hide EnqueueEvent, Readable, Above, IdUsed;
    var renewed := Renew(t1, s, 1, 0, true);
    assert renewed.Done? && TerminalFor(renewed.tables.outbound[s], k) && renewed.tables.terminals == t.terminals;
    hide Renew;
    assert s !in TerminalRows(t, k) by { assert s !in t.outbound by { AboveIsNew(t, s); } }
  }

  lemma AboveIsNew(t: Tables, s: nat)
    requires Above(t, s)
    ensures s !in t.outbound
  {}

  // ----- receipts, completion, frontier, prefix -----

  /** Through any later run a stored receipt is the same and still reads; a
      proven job.state sequence stays delivered; the frontier does not fall; and
      every outbound event up to the proven prefix is acknowledged. */
  lemma ReceiptsSurvive(steps: seq<Step>, later: seq<Step>, s: nat, n: nat, n': nat)
    requires IsFrontier(Run(Empty, steps).inbound.Keys, n) && IsFrontier(Run(Run(Empty, steps), later).inbound.Keys, n')
    ensures var t, t' := Run(Empty, steps), Run(Run(Empty, steps), later);
            && (s in t.receipts ==> ReadReceipt(t', s) == Good(t.receipts[s]))
            && (s in t.receipts && t.receipts[s].response.StateResponse? && Delivered(t, s) ==> Delivered(t', s))
            && n <= n'
            && (s in t'.outbound && s <= t'.proven ==> t'.outbound[s].acknowledged)
  {
    EmptyInv();
    RunsOnlyGrow(Empty, steps);
    var t := Run(Empty, steps);
    RunsOnlyGrow(t, later);
    hide Run, Readable, ReceiptHolds, Delivered;
    FrontierGrows(t.inbound.Keys, Run(t, later).inbound.Keys, n, n');
  }
}
