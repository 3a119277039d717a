/** Whole runs of the connector's journal, from an empty store, in any order and
    with any arguments. */
module JournalRuns {
  import opened Common
  import opened Deadlines
  import opened JournalTypes
  import opened Journal
  import opened JournalInvariant
  import opened Inbound

  datatype Step =
    | PrepareStep(offer: ServerMessage, session: Id, initialMessageId: Id, generation: Id)
    | AdvanceStep(owner: Owner, version: nat, transition: Transition)
    | CommitStep(proposal: Proposal, observed: StatePayload, granted: bool, event: OutInput)
    | ReconcileStep(binding: Binding, state: StatePayload, allowed: bool)
    | EnqueueStep(input: OutInput)
    | RenewStep(sequence: nat, time: int, text: Id, accepted: bool)
    | AckThroughStep(upto: nat, correlation: Correlation)
    | AckEventStep(acked: Id)
    | MapStep(job: Name, attempt: nat, mapped: Name, status: string)
    | RecordStep(id: Id, at: nat, body: Stored, request: Option<nat>)
    | ReplaceStep(previous: InRow, newId: Id, place: nat, newBody: Stored, newRequest: Option<nat>)
    | DeliverStep(delivered: nat)

  function Apply(t: Tables, step: Step): Tables {
    match step
    case PrepareStep(offer, session, id, generation) => After(t, Prepare(t, offer, session, id, generation))
    case AdvanceStep(owner, version, x) => After(t, Advance(t, owner, version, x))
    case CommitStep(p, state, granted, e) => After(t, Commit(t, p, state, granted, e))
    case ReconcileStep(b, state, granted) => After(t, Reconcile(t, b, state, granted))
    case EnqueueStep(e) => After(t, EnqueueEvent(t, e))
    case RenewStep(s, time, text, accepted) => After(t, Renew(t, s, time, text, accepted))
    case AckThroughStep(s, c) => After(t, AcknowledgeThrough(t, s, c))
    case AckEventStep(id) => After(t, AcknowledgeEvent(t, id))
    case MapStep(job, attempt, session, status) => After(t, MapJob(t, job, attempt, session, status))
    case RecordStep(id, s, body, request) => After(t, RecordInbound(t, id, s, body, request))
    case ReplaceStep(previous, id, s, body, request) => After(t, ReplaceInbound(t, previous, id, s, body, request))
    case DeliverStep(s) => After(t, MarkDelivered(t, s))
  }

  function Run(t: Tables, steps: seq<Step>): Tables {
    if steps == [] then t else Apply(Run(t, steps[..|steps| - 1]), steps[|steps| - 1])
  }

  /** A mapJob that succeeds in writing one of the journal's own statuses. */
  predicate Claims(t: Tables, step: Step) {
    && step.MapStep? && JournalStatus(step.status)
    && MapJob(t, step.job, step.attempt, step.mapped, step.status).Done?
  }

  /** No mapJob of the run does so. */
  predicate Tame(t: Tables, steps: seq<Step>) {
    forall i :: 0 <= i < |steps| ==> !Claims(Run(t, steps[..i]), steps[i])
  }

  lemma TameOneMore(t: Tables, steps: seq<Step>, step: Step)
    ensures Tame(t, steps + [step]) <==> Tame(t, steps) && !Claims(Run(t, steps), step)
  {
    hide Claims, Run;
    var all := steps + [step];
    assert forall i :: 0 <= i < |steps| ==> all[..i] == steps[..i] && all[i] == steps[i];
    assert all[..|steps|] == steps && all[|steps|] == step;
  }

  // ----- receipts and the proven prefix -----

  /** Everything up to the proven prefix is acknowledged, and the prefix is not
      beyond what was sent. */
  predicate ProvenOk(t: Tables) {
    && (t.proven == 0 || t.proven in t.outbound)
    && forall s :: s in t.outbound && s <= t.proven ==> t.outbound[s].acknowledged
  }

  /** What holds of the event tables in every run, whatever becomes of the journal. */
  predicate EventsOk(t: Tables) { IdsUnique(t) && ReceiptsGood(t) && ProvenOk(t) }

  predicate Inv(t: Tables) { Readable(t) && EventsOk(t) }

  /** What no step undoes. */
  predicate Grows(t: Tables, t': Tables) {
    && ReceiptsKept(t, t') && CompletionsKept(t, t') && t.inbound.Keys <= t'.inbound.Keys && t.proven <= t'.proven
    && t.outbound.Keys <= t'.outbound.Keys && t.intents.Keys <= t'.intents.Keys
    && forall k :: k in t.terminals ==> k in t'.terminals && t'.terminals[k] == t.terminals[k]
  }

  lemma CreateKept(t: Tables, t': Tables, n: nat, m: ServerMessage)
    requires CitationsKept(t, t') && CreateReceipt(t.outbound, t.profiles, n, m).Some?
    ensures CreateReceipt(t'.outbound, t'.profiles, n, m) == CreateReceipt(t.outbound, t.profiles, n, m)
  {}

  /** Steps that leave the inbound tables alone keep every receipt readable. */
  lemma ReceiptsStayGood(t: Tables, t': Tables)
    requires ReceiptsGood(t) && CitationsKept(t, t')
    requires t'.inbound == t.inbound && t'.receipts == t.receipts && t'.delivered == t.delivered
    ensures ReceiptsGood(t') && ReceiptsKept(t, t') && CompletionsKept(t, t') && (IdsUnique(t) ==> IdsUnique(t'))
  {
    hide CitationsKept, CreateReceipt, Placeholder;
    forall s | s in t'.receipts ensures ReceiptHolds(t', s, t'.receipts[s]) {
      var r := t.receipts[s];
      assert ReceiptHolds(t, s, r);
      var current := ParseResponse(t.inbound[s].messageId, s, t.inbound[s].body).value;
      CreateKept(t, t', r.requestSequence, current.(body := r.response));
    }
  }

  /** The outbound side of a step: rows only appended or annotated. */
  predicate OutboundSteps(t: Tables, t': Tables) {
    && CitationsKept(t, t') && t'.proven == t.proven && t.outbound.Keys <= t'.outbound.Keys
    && (forall s :: s in t.outbound && t.outbound[s].acknowledged ==> t'.outbound[s].acknowledged)
    && (forall s :: s in t'.outbound && s !in t.outbound ==> s >= 1 && Above(t, s))
  }

  lemma ProvenKept(t: Tables, t': Tables)
    requires ProvenOk(t) && OutboundSteps(t, t')
    ensures ProvenOk(t')
  {}

  lemma CommitOutbound(t: Tables, p: Proposal, state: StatePayload, granted: bool, e: OutInput)
    ensures OutboundSteps(t, After(t, Commit(t, p, state, granted, e)))
  {
    hide Readable, RecordOk, ProposalStatus, OperationFits, EventFits;
    var c := Commit(t, p, state, granted, e);
    if c.Done? && c.tables != t {
      assert Above(t, e.sequence) && c.tables == AddOutbound(AddTerminal(t, c.value.winner), e);
      hide Commit;
      OutboundGrows(t, e);
      CommitFrame(t, c.value.winner, e);
    }
  }

  lemma EnqueueOutbound(t: Tables, e: OutInput)
    ensures OutboundSteps(t, After(t, EnqueueEvent(t, e)))
  {
    hide Readable, RequestOk, ForbiddenGeneric;
    var t' := After(t, EnqueueEvent(t, e));
    if t' != t {
      OutboundGrows(t, e);
    } else {
      CitationsSame(t, t');
    }
  }

  lemma RenewOutbound(t: Tables, s: nat, time: int, text: Id, accepted: bool)
    ensures OutboundSteps(t, After(t, Renew(t, s, time, text, accepted)))
  {
    RenewCitations(t, s, time, text, accepted);
    hide CitationsKept, RequestOk;
  }

  lemma AckEventOutbound(t: Tables, id: Id)
    ensures OutboundSteps(t, After(t, AcknowledgeEvent(t, id)))
  {
    AcknowledgeCitations(t, 0, Random(0), id);
    hide CitationsKept;
  }

  lemma AckThroughProven(t: Tables, s: nat, c: Correlation)
    requires ProvenOk(t)
    ensures var t' := After(t, AcknowledgeThrough(t, s, c)); ProvenOk(t') && t.proven <= t'.proven
  {
    hide Above;
  }

  // ----- one step -----

  /** Intents and markers are only added, and a marker never changes. */
  predicate RecordsGrow(t: Tables, t': Tables) {
    && t.intents.Keys <= t'.intents.Keys
    && forall k :: k in t.terminals ==> k in t'.terminals && t'.terminals[k] == t.terminals[k]
  }

  lemma NoMarkerYet(t: Tables, k: Key)
    requires Readable(t) && k in t.intents && !t.intents[k].phase.Closed?
    ensures k !in t.terminals && k == KeyOf(t.intents[k].owner)
  {
    hide RowOk;
    ReadRow(t, k);
    MarkerOfOpen(t, k);
  }

  lemma MarkerOfOpen(t: Tables, k: Key)
    requires k in t.intents && RowOk(t, k) && !t.intents[k].phase.Closed?
    ensures k !in t.terminals && k == KeyOf(t.intents[k].owner)
  {}

  lemma MarkerOfClosed(t: Tables, k: Key)
    requires Readable(t) && k in t.intents && t.intents[k].phase.Closed?
    ensures k in t.terminals && k == KeyOf(t.intents[k].owner)
  {
    ReadRow(t, k);
    hide Readable, RecordOk, IntentOk;
  }

  lemma CommitRecords(t: Tables, p: Proposal, state: StatePayload, granted: bool, e: OutInput)
    ensures RecordsGrow(t, After(t, Commit(t, p, state, granted, e)))
  {
    hide Readable, RecordOk, ProposalStatus, OperationFits, EventFits, Above, IdUsed;
    var c := Commit(t, p, state, granted, e);
    if c.Done? && c.tables != t { NoMarkerYet(t, KeyOf(p.binding.owner)); }
  }

  lemma ReconcileRecords(t: Tables, b: Binding, state: StatePayload, granted: bool)
    ensures RecordsGrow(t, After(t, Reconcile(t, b, state, granted)))
  {
    hide Readable, RecordOk;
    var k := KeyOf(b.owner);
    if Readable(t) && k in t.intents {
      if t.intents[k].phase.Closed? { MarkerOfClosed(t, k); } else { NoMarkerYet(t, k); }
    }
  }

  predicate SameEvents(t: Tables, t': Tables) {
    && t'.outbound == t.outbound && t'.profiles == t.profiles && t'.proven == t.proven && SameInbound(t, t')
  }

  lemma PrepareFrame(t: Tables, offer: ServerMessage, session: Id, id: Id, generation: Id)
    ensures var t' := After(t, Prepare(t, offer, session, id, generation)); SameEvents(t, t') && RecordsGrow(t, t')
  {
    hide Readable, Taken;
  }

  lemma AdvanceFrame(t: Tables, owner: Owner, version: nat, x: Transition)
    ensures var t' := After(t, Advance(t, owner, version, x)); SameEvents(t, t') && RecordsGrow(t, t')
  {
    hide Readable, Advanced;
  }

  lemma ReconcileFrame(t: Tables, b: Binding, state: StatePayload, granted: bool)
    ensures SameEvents(t, After(t, Reconcile(t, b, state, granted)))
  {
    hide Readable, RecordOk;
  }

  lemma MapFrame(t: Tables, job: Name, attempt: nat, session: Name, status: string)
    ensures var t' := After(t, MapJob(t, job, attempt, session, status)); SameEvents(t, t') && RecordsGrow(t, t')
  {
    hide Readable, Touches;
  }

  lemma AfterOwnership(t: Tables, t': Tables)
    requires EventsOk(t) && SameEvents(t, t') && RecordsGrow(t, t')
    ensures EventsOk(t') && Grows(t, t')
  {
    CitationsSame(t, t');
    hide CitationsKept;
    ReceiptsStayGood(t, t');
  }

  lemma OwnershipStep(t: Tables, step: Step)
    requires EventsOk(t) && (step.PrepareStep? || step.AdvanceStep? || step.ReconcileStep? || step.MapStep?)
    ensures EventsOk(Apply(t, step)) && Grows(t, Apply(t, step))
  {
    hide ReceiptsGood, IdsUnique, ProvenOk, Prepare, Advance, Reconcile, MapJob, SameEvents, RecordsGrow;
    var t' := Apply(t, step);
    match step
    case PrepareStep(offer, session, id, generation) =>
      PrepareFrame(t, offer, session, id, generation);
      AfterOwnership(t, t');
    case AdvanceStep(owner, version, x) =>
      AdvanceFrame(t, owner, version, x);
      AfterOwnership(t, t');
    case ReconcileStep(b, state, granted) =>
      ReconcileFrame(t, b, state, granted);
      ReconcileRecords(t, b, state, granted);
      AfterOwnership(t, t');
    case MapStep(job, attempt, session, status) =>
      MapFrame(t, job, attempt, session, status);
      AfterOwnership(t, t');
  }

  lemma OutboundStep(t: Tables, step: Step)
    requires EventsOk(t) && (step.CommitStep? || step.EnqueueStep? || step.RenewStep? || step.AckEventStep?)
    ensures EventsOk(Apply(t, step)) && Grows(t, Apply(t, step))
  {
    hide ReceiptsGood, IdsUnique, ProvenOk, Commit, EnqueueEvent, Renew, AcknowledgeEvent, OutboundSteps;
    hide RecordsGrow;
    var t' := Apply(t, step);
    match step
    case CommitStep(p, state, granted, e) =>
      CommitOutbound(t, p, state, granted, e);
      CommitRecords(t, p, state, granted, e);
      CommitInbound(t, p, state, granted, e);
      AfterOutbound(t, t');
    case EnqueueStep(e) =>
      EnqueueOutbound(t, e);
      EnqueueInbound(t, e);
      AfterOutbound(t, t');
    case RenewStep(s, time, text, accepted) =>
      RenewOutbound(t, s, time, text, accepted);
      RenewInbound(t, s, time, text, accepted);
      AfterOutbound(t, t');
    case AckEventStep(id) =>
      AckEventOutbound(t, id);
      AckEventInbound(t, id);
      AfterOutbound(t, t');
  }

  predicate SameInbound(t: Tables, t': Tables) {
    t'.inbound == t.inbound && t'.delivered == t.delivered && t'.receipts == t.receipts
  }

  lemma CommitInbound(t: Tables, p: Proposal, state: StatePayload, granted: bool, e: OutInput)
    ensures SameInbound(t, After(t, Commit(t, p, state, granted, e)))
  {
    hide Readable, RecordOk, ProposalStatus, OperationFits, EventFits, Above, IdUsed;
  }

  lemma EnqueueInbound(t: Tables, e: OutInput)
    ensures SameInbound(t, After(t, EnqueueEvent(t, e))) && RecordsGrow(t, After(t, EnqueueEvent(t, e)))
  {
    hide Readable, RequestOk, ForbiddenGeneric, Above, IdUsed;
  }

  lemma RenewInbound(t: Tables, s: nat, time: int, text: Id, accepted: bool)
    ensures SameInbound(t, After(t, Renew(t, s, time, text, accepted)))
            && RecordsGrow(t, After(t, Renew(t, s, time, text, accepted)))
  {
    hide RequestOk;
  }

  lemma AckEventInbound(t: Tables, id: Id)
    ensures SameInbound(t, After(t, AcknowledgeEvent(t, id))) && RecordsGrow(t, After(t, AcknowledgeEvent(t, id)))
  {}

  lemma AfterOutbound(t: Tables, t': Tables)
    requires EventsOk(t) && OutboundSteps(t, t') && SameInbound(t, t') && RecordsGrow(t, t')
    ensures EventsOk(t') && Grows(t, t')
  {
    hide CitationsKept;
    ReceiptsStayGood(t, t');
    ProvenKept(t, t');
  }

  lemma AckThroughFrame(t: Tables, s: nat, c: Correlation)
    ensures var t' := After(t, AcknowledgeThrough(t, s, c));
            SameInbound(t, t') && RecordsGrow(t, t') && t.outbound.Keys <= t'.outbound.Keys
  {
    hide Above;
  }

  lemma AckThroughStepKeeps(t: Tables, s: nat, c: Correlation)
    requires EventsOk(t)
    ensures EventsOk(After(t, AcknowledgeThrough(t, s, c))) && Grows(t, After(t, AcknowledgeThrough(t, s, c)))
  {
    hide AcknowledgeThrough, ReceiptsGood, IdsUnique, CitationsKept, ProvenOk, ReceiptsKept, CompletionsKept;
    AcknowledgeCitations(t, s, c, 0);
    AckThroughProven(t, s, c);
    AckThroughFrame(t, s, c);
    ReceiptsStayGood(t, After(t, AcknowledgeThrough(t, s, c)));
  }

  /** A step of the inbound journal touches only the inbound tables. */
  predicate OnlyInbound(t: Tables, t': Tables) {
    && t'.intents == t.intents && t'.active == t.active && t'.generations == t.generations
    && t'.terminals == t.terminals && t'.mappings == t.mappings
    && t'.outbound == t.outbound && t'.profiles == t.profiles && t'.proven == t.proven
  }

  lemma ReceiptOnly(t: Tables, p: Preparation)
    ensures WithReceipt(t, p) == t.(receipts := WithReceipt(t, p).receipts)
  {}

  lemma RecordFrame(t: Tables, id: Id, s: nat, body: Stored, request: Option<nat>)
    ensures OnlyInbound(t, After(t, RecordInbound(t, id, s, body, request)))
  {
    hide PrepareReceipt, MessageKnown, WithReceipt;
    var p := PrepareReceipt(t, id, s, body, request, false);
    ReceiptOnly(t.(inbound := t.inbound[s := InRow(id, body)]), p);
  }

  lemma ReplaceFrame(t: Tables, previous: InRow, id: Id, s: nat, body: Stored, request: Option<nat>)
    ensures OnlyInbound(t, After(t, ReplaceInbound(t, previous, id, s, body, request)))
  {
    hide PrepareReceipt, MessageKnown, Proving, Delivered;
  }

  lemma AfterInbound(t: Tables, t': Tables)
    requires EventsOk(t) && OnlyInbound(t, t') && IdsUnique(t') && ReceiptsGood(t')
    requires ReceiptsKept(t, t') && CompletionsKept(t, t') && t.inbound.Keys <= t'.inbound.Keys
    ensures EventsOk(t') && Grows(t, t')
  {
    hide ReceiptsGood, IdsUnique, ReceiptsKept, CompletionsKept;
  }

  lemma InboundStep(t: Tables, step: Step)
    requires EventsOk(t) && (step.RecordStep? || step.ReplaceStep? || step.DeliverStep?)
    ensures EventsOk(Apply(t, step)) && Grows(t, Apply(t, step))
  {
    hide ReceiptsGood, IdsUnique, ProvenOk, ReceiptsKept, CompletionsKept, RecordInbound, ReplaceInbound;
    var t' := Apply(t, step);
    match step
    case RecordStep(id, s, body, request) =>
      RecordKeeps(t, id, s, body, request);
      RecordFrame(t, id, s, body, request);
      AfterInbound(t, t');
    case ReplaceStep(previous, id, s, body, request) =>
      ReplaceKeeps(t, previous, id, s, body, request);
      ReplaceFrame(t, previous, id, s, body, request);
      AfterInbound(t, t');
    case DeliverStep(s) =>
      DeliverKeeps(t, s);
      AfterInbound(t, t');
  }

  /** Every step, with any arguments, keeps the event tables and undoes nothing. */
  lemma StepKeeps(t: Tables, step: Step)
    requires EventsOk(t)
    ensures EventsOk(Apply(t, step)) && Grows(t, Apply(t, step))
  {
    hide EventsOk, Grows;
    match step
    case PrepareStep(_, _, _, _) => OwnershipStep(t, step);
    case AdvanceStep(_, _, _) => OwnershipStep(t, step);
    case ReconcileStep(_, _, _) => OwnershipStep(t, step);
    case MapStep(_, _, _, _) => OwnershipStep(t, step);
    case AckThroughStep(s, c) => AckThroughStepKeeps(t, s, c);
    case RecordStep(_, _, _, _) => InboundStep(t, step);
    case ReplaceStep(_, _, _, _, _) => InboundStep(t, step);
    case DeliverStep(_) => InboundStep(t, step);
    case _ => OutboundStep(t, step);
  }

  lemma InboundReads(t: Tables, t': Tables)
    requires Readable(t) && OnlyInbound(t, t')
    ensures Readable(t')
  {
    hide Readable, CitationsKept;
    CitationsSame(t, t');
    OutboundKeeps(t, t');
  }

  /** Every step that claims no journal status keeps the journal readable. */
  lemma StepReads(t: Tables, step: Step)
    requires Readable(t) && !Claims(t, step)
    ensures Readable(Apply(t, step))
  {
    hide Readable, OnlyInbound, Prepare, Advance, Commit, Reconcile, EnqueueEvent, Renew, AcknowledgeThrough;
    hide AcknowledgeEvent, MapJob, RecordInbound, ReplaceInbound;
    match step
    case PrepareStep(offer, session, id, generation) => PrepareKeeps(t, offer, session, id, generation);
    case AdvanceStep(owner, version, x) => AdvanceKeeps(t, owner, version, x);
    case CommitStep(p, state, granted, e) => CommitKeeps(t, p, state, granted, e);
    case ReconcileStep(b, state, granted) => ReconcileKeeps(t, b, state, granted);
    case EnqueueStep(e) => EnqueueKeeps(t, e);
    case RenewStep(s, time, text, accepted) => RenewKeeps(t, s, time, text, accepted);
    case AckThroughStep(s, c) => AcknowledgeKeeps(t, s, c, 0);
    case AckEventStep(id) => AcknowledgeKeeps(t, 0, Random(0), id);
    case MapStep(job, attempt, session, status) =>
      if MapJob(t, job, attempt, session, status).Done? { MapJobKeepsIff(t, job, attempt, session, status); }
    case RecordStep(id, s, body, request) =>
      RecordFrame(t, id, s, body, request);
      InboundReads(t, Apply(t, step));
    case ReplaceStep(previous, id, s, body, request) =>
      ReplaceFrame(t, previous, id, s, body, request);
      InboundReads(t, Apply(t, step));
    case DeliverStep(s) =>
      DeliverFrame(t, s);
      InboundReads(t, Apply(t, step));
  }

  lemma DeliverFrame(t: Tables, s: nat)
    ensures OnlyInbound(t, After(t, MarkDelivered(t, s)))
  {}

  lemma StepSound(t: Tables, step: Step)
    requires Inv(t) && !Claims(t, step)
    ensures Inv(Apply(t, step))
  {
    hide Readable, EventsOk, Apply, Claims, Grows;
    StepKeeps(t, step);
    StepReads(t, step);
  }
}
