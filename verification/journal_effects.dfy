/** What each transaction of the connector's journal does to the tables, said row
    by row against its caller's input, and exactly when. */
module JournalEffects {
  import opened Common
  import opened JobState
  import opened Deadlines
  import opened JournalTypes
  import opened Journal
  import opened Inbound
  import opened JournalRuns

  // ----- what the schemas accept -----

  /** An intent knows its mode from creation on and its evidence from the start on;
      the evidence is of its own session, first message and request. */
  lemma IntentExactly(v: Intent)
    ensures IntentOk(v) <==>
              && 1 <= v.owner.attempt <= 2147483647 && v.version <= 9007199254740991
              && 1 <= v.offer.sequence <= 9007199254740991 && v.offer.sentAt < v.offer.expiresAt
              && (v.evidence.Some? ==>
                    && v.mode.Some? && v.evidence.value.session == v.owner.session
                    && v.evidence.value.messageId == v.initialMessageId && v.evidence.value.digest == v.digest
                    && v.evidence.value.eventSequence <= 9007199254740991)
              && (v.phase == Prepared ==> v.mode == None && v.evidence == None)
              && (v.phase in {Creating, Submitting} ==> v.mode.Some? && v.evidence == None)
              && (v.phase == Started ==> v.mode.Some? && v.evidence.Some?)
  {}

  /** A terminal record closes a valid open intent one version on: by a proposal that
      fits it and yields its status, or by the terminal state of that very attempt. */
  lemma RecordAccepts(r: TerminalRecord)
    ensures RecordOk(r) <==>
              && IntentOk(r.predecessor) && r.predecessor.phase != Closed
              && r.committedVersion == r.predecessor.version + 1 <= 9007199254740991
              && match r
                 case Local(v, _, op, correlation, payload, status, _, sequence, _) =>
                   && 1 <= sequence <= 9007199254740991 && OperationFits(v, op)
                   && Proposes(Proposal(Binding(v.owner, v.version, op), correlation, payload), status)
                 case Remote(v, _, status, state) =>
                   && SchemaOk(state) && state.status == status && status in {Succeeded, Failed, Cancelled, Expired}
                   && v.mode == Some(state.mode) && state.jobId == v.owner.job
                   && state.repositoryId == v.owner.repository
                   && state.currentAttempt == v.owner.attempt == state.requestedAttempt
  {
    hide IntentOk, OperationFits, SchemaOk, ProposalStatus, Proposes;
    if r.Local? {
      ProposalExactly(Proposal(Binding(r.predecessor.owner, r.predecessor.version, r.operation), r.correlation,
                               r.payload),
                      r.status);
    }
  }

  // ----- what a readable journal is -----

  /** A journal that reads without corruption is one in which everything written
      about an attempt agrees, and nothing is written about no attempt. */
  lemma ReadableAgrees(t: Tables, k: Key)
    requires Readable(t) && k in t.intents
    ensures var v, o := t.intents[k], t.intents[k].owner;
            && k == (o.job, o.attempt) && IntentOk(v)
            && o.job in t.active && t.active[o.job] == o && o.generation in t.generations
            && t.generations[o.generation] == o
            && (Canonical(o.job), o.attempt) in t.mappings
            && t.mappings[(Canonical(o.job), o.attempt)].session == Canonical(o.session)
            && (forall m :: m in t.mappings && (m.0.base == o.job || t.mappings[m].session.base == o.session) ==>
                  m == (Canonical(o.job), o.attempt))
            && (v.phase == Closed <==> k in t.terminals)
  {
    assert RowOk(t, k);
    hide RowsOk, ActiveOwned, GenerationsOwned, StatusesOwned, RecordOk;
  }

  /** The status a mapping shows is the phase of its intent, or how it ended. */
  lemma ReadableStatus(t: Tables, k: Key)
    requires Readable(t) && k in t.intents
    ensures var v, o := t.intents[k], t.intents[k].owner;
            && (Canonical(o.job), o.attempt) in t.mappings
            && var status := t.mappings[(Canonical(o.job), o.attempt)].status;
               match v.phase
               case Prepared => status == "prepared"
               case Creating => status == "creating"
               case Submitting => status == "submitting"
               case Started => status == "started"
               case Closed =>
                 && k in t.terminals
                 && (t.terminals[k].status == Succeeded ==> status == "succeeded")
                 && (t.terminals[k].status == Failed ==> status == "failed")
                 && (t.terminals[k].status == Cancelled ==> status == "cancelled")
                 && (t.terminals[k].status == Expired ==> status == "expired")
  {
    hide Readable, MappingOk, MarkerOk;
    StatusShown(t, k);
    if t.intents[k].phase == Closed { ClosedIsMarked(t, k); }
  }

  lemma StatusShown(t: Tables, k: Key)
    requires Readable(t) && k in t.intents
    ensures var v, m := t.intents[k], MappingKey(t.intents[k].owner);
            m in t.mappings && t.mappings[m].status == StatusOf(t, k, v)
  {
    RowReads(t, k);
    hide Readable, RecordOk, IntentOk, IndexOk, MarkerOk, StatusOf;
  }

  lemma ClosedIsMarked(t: Tables, k: Key)
    requires Readable(t) && k in t.intents && t.intents[k].phase == Closed
    ensures k in t.terminals
  {
    RowReads(t, k);
    hide Readable, RecordOk, IntentOk, IndexOk, MappingOk;
  }

  lemma RowReads(t: Tables, k: Key)
    requires Readable(t) && k in t.intents
    ensures RowOk(t, k)
  {
    hide RowOk, ActiveOwned, GenerationsOwned, StatusesOwned, MarkersOwned;
  }

  /** The marker of a closed intent: its predecessor is the open record one version
      before, with the same identity; a local one cites the outbound row that is
      still exactly its message, a remote one the terminal state that closed it. */
  lemma ReadableMarker(t: Tables, k: Key)
    requires Readable(t) && k in t.terminals
    ensures k in t.intents && RecordOk(t.terminals[k])
    ensures var v, r := t.intents[k], t.terminals[k];
            && v == r.predecessor.(phase := Closed, version := r.predecessor.version + 1)
            && r.predecessor.phase != Closed
            && (r.Local? ==>
                  && r.outSequence in t.outbound && r.outSequence in t.profiles
                  && var row := t.outbound[r.outSequence];
                     && row.messageId == r.outId == row.payload.messageId && row.payload.sequence == r.outSequence
                     && row.payload.sentAt == Some(r.outSentAt) && row.payload.correlation == r.correlation
                     && row.payload.body == r.payload && row.payload.expiry.At?
                     && row.payload.expiry.time > r.outSentAt)
            && (r.Remote? ==>
                  && r.state.status == r.status && r.status in {Succeeded, Failed, Cancelled, Expired}
                  && r.state.jobId == v.owner.job && r.state.repositoryId == v.owner.repository
                  && r.state.currentAttempt == v.owner.attempt && v.mode == Some(r.state.mode))
  {
    assert RowOk(t, k);
    hide RowsOk, ActiveOwned, GenerationsOwned, StatusesOwned, IntentOk, OperationFits, ProposalStatus, SchemaOk;
  }

  /** Nothing is indexed or mapped as the journal's own without an intent. */
  lemma ReadableOwns(t: Tables)
    requires Readable(t)
    ensures forall j :: j in t.active ==>
              (t.active[j].job, t.active[j].attempt) in t.intents
              && t.intents[(t.active[j].job, t.active[j].attempt)].owner.job == j
    ensures forall g :: g in t.generations ==>
              (t.generations[g].job, t.generations[g].attempt) in t.intents
              && t.intents[(t.generations[g].job, t.generations[g].attempt)].owner.generation == g
    ensures forall m :: m in t.mappings && t.mappings[m].status in {"prepared", "creating", "submitting", "started"} ==>
              m.0 == Canonical(m.0.base) && (m.0.base, m.1) in t.intents
  {
    hide RowsOk;
  }

  // ----- preparing and advancing -----

  /** The owner of a prepared offer. */
  predicate Untouched(t: Tables, o: Owner) {
    && (forall k :: k in t.intents ==> t.intents[k].owner.job != o.job && t.intents[k].owner.generation != o.generation)
    && (forall m :: m in t.mappings ==> m.0.base != o.job && t.mappings[m].session.base != o.session)
  }

  /** Preparing takes up exactly a stored, valid offer whose job, session and
      generation nobody has, and records what the offer says. */
  lemma PrepareExactly(t: Tables, offer: ServerMessage, session: Id, id: Id, generation: Id)
    requires Readable(t) && offer.body.OfferResponse? && offer.correlation.Random?
    requires (offer.body.offer.job, offer.body.offer.attempt) !in t.intents
    ensures var r, x := Prepare(t, offer, session, id, generation), offer.body.offer;
            var o := Owner(x.job, x.attempt, x.repository, session, generation);
            && (r.Done? <==>
                  && 1 <= x.attempt <= MAX_INT32 && 1 <= offer.sequence <= MAX_SAFE && offer.sentAt < offer.expiresAt
                  && offer.sequence in t.inbound && t.inbound[offer.sequence] == InRow(offer.messageId, Read(offer))
                  && Untouched(t, o))
            && (r.Done? ==>
                  var v := r.value;
                  && v.owner == o && v.lease == x.lease && v.digest == x.request && v.initialMessageId == id
                  && v.offer == OfferRef(offer.messageId, offer.sequence, offer.correlation.id, offer.sentAt,
                                         offer.expiresAt)
                  && v.phase == Prepared && v.version == 0 && v.mode == None && v.evidence == None
                  && v.unavailable == None
                  && r.tables == t.(intents := t.intents[(x.job, x.attempt) := v], active := t.active[x.job := o],
                                    generations := t.generations[generation := o],
                                    mappings := t.mappings[(Canonical(x.job), x.attempt) :=
                                                             Mapping(Canonical(session), "prepared")]))
  {
    hide Readable;
    TakenIff(t,
             Owner(offer.body.offer.job, offer.body.offer.attempt, offer.body.offer.repository, session, generation));
    hide Taken, Untouched;
  }

  /** Preparing the same offer again returns the record as it stands by now; any other
      offer for the attempt conflicts. */
  lemma PrepareAgain(t: Tables, offer: ServerMessage, session: Id, id: Id, generation: Id)
    requires Readable(t) && offer.body.OfferResponse? && offer.correlation.Random?
    requires (offer.body.offer.job, offer.body.offer.attempt) in t.intents
    ensures var r, x := Prepare(t, offer, session, id, generation), offer.body.offer;
            var v := t.intents[(x.job, x.attempt)];
            && (r.Done? <==>
                  && 1 <= x.attempt <= MAX_INT32 && 1 <= offer.sequence <= MAX_SAFE && offer.sentAt < offer.expiresAt
                  && v.owner == Owner(x.job, x.attempt, x.repository, session, generation)
                  && v.lease == x.lease && v.digest == x.request && v.initialMessageId == id
                  && v.offer == OfferRef(offer.messageId, offer.sequence, offer.correlation.id, offer.sentAt,
                                         offer.expiresAt))
            && (r.Done? ==> r.tables == t && r.value == v)
  {
    hide Readable, Taken;
  }

  lemma TakenIff(t: Tables, o: Owner)
    ensures Taken(t, o) <==> !Untouched(t, o)
  {
    assert forall m :: m in t.mappings ==>
             (Touches(m, t.mappings[m], o) <==> m.0.base == o.job || t.mappings[m].session.base == o.session);
  }

  /** The journal's four steps, prepared, creating, submitting, started, and the loss
      of a session at any of them. */
  predicate MayAdvance(v: Intent, x: Transition) {
    match x
    case ToUnavailable(reason) => v.unavailable == None || v.unavailable == Some(reason)
    case ToCreating(_) => v.phase == Prepared && v.unavailable == None
    case ToSubmitting => v.phase == Creating && v.unavailable == None
    case ToStarted(e) =>
      && v.phase == Submitting && v.unavailable == None && e.eventSequence <= MAX_SAFE
      && e.session == v.owner.session && e.messageId == v.initialMessageId && e.digest == v.digest
  }

  /** The record one step on: one version later, and nothing else but the step. */
  predicate OneStepOn(v: Intent, w: Intent, x: Transition) {
    match x
    case ToUnavailable(reason) => w == v.(version := v.version + 1, unavailable := Some(reason))
    case ToCreating(mode) => w == v.(version := v.version + 1, phase := Creating, mode := Some(mode))
    case ToSubmitting => w == v.(version := v.version + 1, phase := Submitting)
    case ToStarted(e) => w == v.(version := v.version + 1, phase := Started, evidence := Some(e))
  }

  lemma AdvanceExactly(t: Tables, owner: Owner, version: nat, x: Transition)
    requires Readable(t) && KeyOf(owner) in t.intents && t.intents[KeyOf(owner)].owner == owner
    ensures var r, v := Advance(t, owner, version, x), t.intents[KeyOf(owner)];
            var again := x.ToUnavailable? && v.unavailable == Some(x.reason);
            && (r.Done? <==>
                  v.phase != Closed && v.version == version && (again || version < MAX_SAFE) && MayAdvance(v, x))
            && (r.Done? && again ==> r.tables == t && r.value == v)
            && (r.Done? && !again ==>
                  && OneStepOn(v, r.value, x)
                  && r.tables == t.(intents := t.intents[KeyOf(owner) := r.value],
                                    mappings := t.mappings[(Canonical(owner.job), owner.attempt) :=
                                                             Mapping(Canonical(owner.session),
                                                                 PhaseText(r.value.phase))]))
  {
    hide Readable, PhaseText;
  }

  // ----- terminal records -----

  /** The proposal is the one message that may close the attempt by this operation. */
  predicate Proposes(p: Proposal, status: JobStatus) {
    var o, op, b := p.binding.owner, p.binding.operation, p.payload;
    && p.correlation == CorrelationFor(o, op)
    && match op
       case ReconcileOp => false
       case Cancel(_) =>
         status == Cancelled && b.JobCancelled? && (b.job, b.attempt) == (o.job, o.attempt) && b.reason == ByOwner
       case Lost(reason) =>
         && status == Failed && b.JobEvent? && (b.job, b.attempt) == (o.job, o.attempt) && b.harness
         && b.eventType == "job.failed" && b.detail == UnavailableDetail(reason)
       case Native(outcome, _) =>
         && status == outcome && b.JobEvent? && (b.job, b.attempt) == (o.job, o.attempt) && b.harness && !b.detail.Free?
         && ((outcome == Succeeded && b.eventType == "job.succeeded")
             || (outcome == Failed && b.eventType == "job.failed"))
  }

  lemma ProposalExactly(p: Proposal, status: JobStatus)
    ensures ProposalStatus(p) == Some(status) <==> Proposes(p, status)
  {}

  /** Derived correlations tell terminal messages apart by owner, kind, and the event or
      revision they answer for. */
  lemma CorrelationsTellApart(o: Owner, op: Operation, o': Owner, op': Operation)
    ensures CorrelationFor(o, op) == CorrelationFor(o', op') <==>
              && o == o'
              && match op
                 case Native(_, s) => op'.Native? && op'.eventSequence == s
                 case Cancel(r) => op'.Cancel? && op'.cancelRevision == r
                 case Lost(_) => op'.Lost?
                 case ReconcileOp => op'.ReconcileOp?
    ensures CorrelationFor(o, op).Derived?
  {}

  /** The record allows the operation: a native result no earlier than the start it
      was seen to have, a loss for the recorded reason. */
  lemma OperationExactly(v: Intent, op: Operation)
    ensures OperationFits(v, op) <==>
              match op
              case Native(_, sequence) => v.phase == Started && v.unavailable == None && v.evidence.Some?
                                          && sequence >= v.evidence.value.eventSequence
              case Lost(reason) => v.unavailable == Some(reason)
              case Cancel(_) => true
              case ReconcileOp => true
  {}

  /** The event is the proposal's own message, complete and profiled. */
  predicate Carries(e: OutInput, p: Proposal) {
    && e.payload.shaped && e.payload.sentAt.Some? && e.payload.expiry.At?
    && e.payload.sentAt.value < e.payload.expiry.time
    && e.payload.messageId == e.messageId && e.payload.sequence == e.sequence && e.profiled
    && e.payload.correlation == p.correlation && e.payload.body == p.payload
  }

  lemma OpenIsOk(t: Tables, k: Key)
    requires Readable(t) && k in t.intents && t.intents[k].phase != Closed
    ensures IntentOk(t.intents[k]) && k == KeyOf(t.intents[k].owner) && k !in t.terminals
  {
    assert RowOk(t, k);
    hide RowsOk, ActiveOwned, GenerationsOwned, StatusesOwned, MappingOk, IntentOk;
  }

  lemma LocalIsOk(v: Intent, p: Proposal, status: JobStatus, e: OutInput)
    requires IntentOk(v) && v.phase != Closed && v.owner == p.binding.owner
             && v.version == p.binding.expectedVersion < MAX_SAFE
    requires ProposalStatus(p) == Some(status) && OperationFits(v, p.binding.operation)
    requires e.payload.sentAt.Some? && 1 <= e.sequence <= MAX_SAFE
    ensures RecordOk(LocalRecord(v, p, status, e))
  {
    hide IntentOk, OperationFits;
  }

  /** The proposal fits the record it was made for and its message is new. */
  predicate MayClose(t: Tables, v: Intent, p: Proposal, state: StatePayload, e: OutInput) {
    && ProposalStatus(p).Some? && v.owner == p.binding.owner
    && v.version == p.binding.expectedVersion < MAX_SAFE && OperationFits(v, p.binding.operation)
    && state.currentAttempt == v.owner.attempt && (v.mode.Some? ==> v.mode == Some(state.mode))
    && Carries(e, p) && 1 <= e.sequence <= MAX_SAFE && IsNew(t, e)
  }

  predicate IsNew(t: Tables, e: OutInput) {
    forall s :: s in t.outbound ==> s < e.sequence && t.outbound[s].messageId != e.messageId
  }

  /** A commit on an open attempt closes it exactly when authority is granted and
      the proposal may close it. */
  lemma CommitsWhenItMay(t: Tables, p: Proposal, state: StatePayload, granted: bool, e: OutInput)
    requires Readable(t) && KeyOf(p.binding.owner) in t.intents && t.intents[KeyOf(p.binding.owner)].phase != Closed
    ensures var c := Commit(t, p, state, granted, e);
            && (c.Done? <==> granted && MayClose(t, t.intents[KeyOf(p.binding.owner)], p, state, e))
            && (c.Done? ==> c.value.Committed? && c.tables == AddOutbound(AddTerminal(t, c.value.winner), e)
                            && ProposalStatus(p).Some? && e.payload.sentAt.Some?
                            && c.value.winner == LocalRecord(t.intents[KeyOf(p.binding.owner)], p,
                                                             ProposalStatus(p).value, e))
  {
    hide Readable, IntentOk, ProposalStatus, OperationFits, RecordOk, AddTerminal, AddOutbound, LocalRecord, Above;
    hide IdUsed;
    hide EventFits, Carries, IsNew, AgainstExisting;
    var k := KeyOf(p.binding.owner);
    OpenIsOk(t, k);
    FreshIff(t, e);
    CarriesIff(e, p);
    var v := t.intents[k];
    if MayClose(t, v, p, state, e) { LocalIsOk(v, p, ProposalStatus(p).value, e); }
  }

  lemma CarriesIff(e: OutInput, p: Proposal)
    ensures (EventFits(e, p) <==> Carries(e, p)) && (Carries(e, p) ==> e.payload.sentAt.Some?)
  {}

  /** The record says what was proposed, for whom, and which message carries it. */
  predicate Records(r: TerminalRecord, v: Intent, p: Proposal, e: OutInput) {
    && r.Local? && r.predecessor == v && r.committedVersion == v.version + 1 && r.operation == p.binding.operation
    && r.correlation == p.correlation && r.payload == p.payload && Some(r.status) == ProposalStatus(p)
    && r.outId == e.messageId && r.outSequence == e.sequence && Some(r.outSentAt) == e.payload.sentAt
  }

  /** The intent closes one version on, the marker is the record, and the mapping
      shows its status. */
  predicate ClosedBy(t: Tables, t': Tables, v: Intent, r: TerminalRecord) {
    && t'.intents == t.intents[(v.owner.job, v.owner.attempt) := v.(phase := Closed, version := v.version + 1)]
    && t'.terminals == t.terminals[(v.owner.job, v.owner.attempt) := r]
    && t'.mappings == t.mappings[(Canonical(v.owner.job), v.owner.attempt) :=
                                   Mapping(Canonical(v.owner.session), StatusText(r.status))]
    && t'.active == t.active && t'.generations == t.generations && t'.proven == t.proven && SameInbound(t, t')
  }

  lemma AddsClose(t: Tables, v: Intent, r: TerminalRecord, e: OutInput)
    requires r.predecessor == v && r.committedVersion == v.version + 1
    ensures ClosedBy(t, AddOutbound(AddTerminal(t, r), e), v, r)
    ensures var t' := AddOutbound(AddTerminal(t, r), e);
            && t'.outbound == t.outbound[e.sequence := OutRow(e.messageId, e.payload, false)]
            && t'.profiles == if e.profiled then t.profiles + {e.sequence} else t.profiles
  {
    hide StatusText;
  }

  lemma TerminalCloses(t: Tables, v: Intent, r: TerminalRecord)
    requires r.predecessor == v && r.committedVersion == v.version + 1
    ensures ClosedBy(t, AddTerminal(t, r), v, r) && SameEvents(t, AddTerminal(t, r))
  {
    hide StatusText;
  }

  lemma LocalRecords(v: Intent, p: Proposal, status: JobStatus, e: OutInput)
    requires e.payload.sentAt.Some? && ProposalStatus(p) == Some(status)
    ensures Records(LocalRecord(v, p, status, e), v, p, e)
  {
    hide ProposalStatus;
  }

  /** What it writes: the attempt closes with a record of the proposal, and the
      message is queued unacknowledged and profiled. */
  lemma CommitWrites(t: Tables, v: Intent, p: Proposal, state: StatePayload, e: OutInput)
    requires Readable(t) && KeyOf(p.binding.owner) in t.intents && t.intents[KeyOf(p.binding.owner)] == v
    requires v.phase != Closed && MayClose(t, v, p, state, e)
    ensures var c := Commit(t, p, state, true, e);
            && c.Done? && c.value.Committed? && Records(c.value.winner, v, p, e)
            && ClosedBy(t, c.tables, v, c.value.winner)
            && c.tables.outbound == t.outbound[e.sequence := OutRow(e.messageId, e.payload, false)]
            && c.tables.profiles == t.profiles + {e.sequence}
  {
    hide Readable, Commit, ProposalStatus, OperationFits, Records, ClosedBy, AddTerminal, AddOutbound;
    CommitsWhenItMay(t, p, state, true, e);
    LocalRecords(v, p, ProposalStatus(p).value, e);
    AddsClose(t, v, Commit(t, p, state, true, e).value.winner, e);
  }

  /** Why a commit is refused where the proposal itself is in order. */
  lemma CommitSaysWhy(t: Tables, p: Proposal, state: StatePayload, granted: bool, e: OutInput)
    requires ProposalStatus(p).Some?
    ensures var c := Commit(t, p, state, granted, e);
            && (c == Refused(Revoked) <==> !granted)
            && (c == Refused(Corrupt) ==> granted && !Readable(t))
            && (granted && !Readable(t) ==> c == Refused(Corrupt))
            && (c == Refused(NotMonotonic) ==> exists s :: s in t.outbound && s >= e.sequence)
            && (c == Refused(NotStored) ==> exists s :: s in t.outbound && t.outbound[s].messageId == e.messageId)
            && (c == Refused(InvalidInput) ==> !Carries(e, p) || !(1 <= e.sequence <= 9007199254740991))
  {
    hide Readable, IntentOk, ProposalStatus, OperationFits, RecordOk, AddTerminal, AddOutbound, EventFits, Carries;
    hide AgainstExisting;
    CarriesIff(e, p);
    var k := KeyOf(p.binding.owner);
    if Readable(t) && k in t.intents && t.intents[k].phase != Closed && granted {
      CommitsWhenItMay(t, p, state, granted, e);
      OpenIsOk(t, k);
      FreshIff(t, e);
      if MayClose(t, t.intents[k], p, state, e) { LocalIsOk(t.intents[k], p, ProposalStatus(p).value, e); }
    }
  }

  lemma FreshIff(t: Tables, e: OutInput)
    ensures Above(t, e.sequence) && !IdUsed(t, e.messageId) <==> IsNew(t, e)
  {}

  /** A repeated or competing commit is told what closed the attempt and whether
      that was the same proposal. */
  lemma AgainstExactly(r: TerminalRecord, p: Proposal)
    ensures var a := AgainstExisting(r, p);
            && (r.Remote? ==> a == Some(RemoteWon(r)))
            && (r.Local? && r.correlation != p.correlation ==> a == Some(Existing(Competing, r)))
            && (r.Local? && r.correlation == p.correlation ==>
                  a == if r.operation == p.binding.operation && r.payload == p.payload then Some(Existing(Same, r))
                       else None)
  {}

  /** The state is terminal and is the state of this attempt in the mode it runs in. */
  predicate MayReconcile(v: Intent, b: Binding, state: StatePayload) {
    && b.operation == ReconcileOp && v.owner == b.owner && v.version == b.expectedVersion < MAX_SAFE
    && v.mode == Some(state.mode) && state.status in {Succeeded, Failed, Cancelled, Expired} && SchemaOk(state)
    && state.jobId == b.owner.job && state.repositoryId == b.owner.repository
    && state.currentAttempt == b.owner.attempt == state.requestedAttempt
  }

  lemma RemoteIsOk(v: Intent, b: Binding, state: StatePayload)
    requires IntentOk(v) && v.phase != Closed && v.owner == b.owner && b.operation == ReconcileOp
    requires v.version == b.expectedVersion && v.mode == Some(state.mode) && state.currentAttempt == b.owner.attempt
    requires Terminal(state.status)
    ensures RecordOk(Remote(v, v.version + 1, state.status, state)) <==> MayReconcile(v, b, state)
  {
    hide IntentOk, SchemaOk;
  }

  /** A remote closure of an open attempt, exactly when granted and fitting. */
  lemma ReconcilesWhenItMay(t: Tables, b: Binding, state: StatePayload, granted: bool)
    requires Readable(t) && KeyOf(b.owner) in t.intents && t.intents[KeyOf(b.owner)].phase != Closed
    ensures var c, v := Reconcile(t, b, state, granted), t.intents[KeyOf(b.owner)];
            && (c.Done? <==> granted && MayReconcile(v, b, state))
            && (c.Done? ==> c.value == Reconciled(Remote(v, v.version + 1, state.status, state))
                            && c.tables == AddTerminal(t, c.value.record))
  {
    hide Readable, IntentOk, RecordOk, AddTerminal, SchemaOk;
    OpenIsOk(t, KeyOf(b.owner));
    var v := t.intents[KeyOf(b.owner)];
    if v.owner == b.owner && b.operation == ReconcileOp && v.version == b.expectedVersion && v.mode == Some(state.mode)
       && state.currentAttempt == b.owner.attempt && Terminal(state.status) { RemoteIsOk(v, b, state); }
  }

  lemma ReconcileWrites(t: Tables, v: Intent, b: Binding, state: StatePayload)
    requires Readable(t) && KeyOf(b.owner) in t.intents && t.intents[KeyOf(b.owner)] == v
    requires v.phase != Closed && MayReconcile(v, b, state)
    ensures var c, r := Reconcile(t, b, state, true), Remote(v, v.version + 1, state.status, state);
            c.Done? && c.value == Reconciled(r) && ClosedBy(t, c.tables, v, r) && SameEvents(t, c.tables)
  {
    hide Readable, Reconcile, ClosedBy, AddTerminal, SameEvents, MayReconcile;
    ReconcilesWhenItMay(t, b, state, true);
    TerminalCloses(t, v, Remote(v, v.version + 1, state.status, state));
  }

  /** On a closed attempt nothing changes: a proposal for the record it closed is told
      what closed it, a terminal state that agrees with it is told the same. */
  lemma ClosedAnswers(t: Tables, p: Proposal, b: Binding, state: StatePayload, granted: bool, e: OutInput)
    requires Readable(t) && KeyOf(b.owner) in t.terminals && p.binding.owner == b.owner
    ensures KeyOf(b.owner) in t.intents
    ensures var v, r := t.intents[KeyOf(b.owner)], t.terminals[KeyOf(b.owner)];
            var c, d := Commit(t, p, state, granted, e), Reconcile(t, b, state, granted);
            && (c.Done? <==>
                  && granted && ProposalStatus(p).Some? && v.owner == b.owner
                  && r.predecessor.version == p.binding.expectedVersion
                  && OperationFits(r.predecessor, p.binding.operation)
                  && state.currentAttempt == b.owner.attempt
                  && (r.predecessor.mode.Some? ==> r.predecessor.mode == Some(state.mode))
                  && AgainstExisting(r, p).Some?)
            && (c.Done? ==> c.tables == t && Some(c.value) == AgainstExisting(r, p))
            && (d.Done? <==>
                  && granted && b.operation == ReconcileOp && v.owner == b.owner && v.version == b.expectedVersion
                  && v.mode == Some(state.mode) && state.currentAttempt == b.owner.attempt
                  && state.status in {Succeeded, Failed, Cancelled, Expired}
                  && (r.Remote? ==> r.status == state.status))
            && (d.Done? ==> d.tables == t && d.value == AlreadyClosed(r))
  {
    hide Readable, RecordOk, ProposalStatus, OperationFits, EventFits, Above, IdUsed, AddTerminal, AddOutbound;
    hide AgainstExisting;
    MarkerIsClosed(t, KeyOf(b.owner));
  }

  lemma MarkerIsClosed(t: Tables, k: Key)
    requires Readable(t) && k in t.terminals
    ensures k in t.intents && t.intents[k].phase == Closed && k == KeyOf(t.intents[k].owner)
  {
    assert k in t.intents;
    assert RowOk(t, k);
    hide RowsOk, ActiveOwned, GenerationsOwned, StatusesOwned, RecordOk, IntentOk, MappingOk;
  }

  // ----- the outbound queue -----

  /** What the guard holds back for an owned attempt: everything but the four
      generic events without a status of their own. */
  lemma HeldBack(b: Body)
    ensures ForbiddenGeneric(b) <==>
              || b.JobCancelled?
              || (b.JobEvent? && (b.eventType !in {"stage.changed", "progress.updated", "tool.started", "tool.finished"}
                                  || (b.detail.Free? && b.detail.status.Some?)))
  {}

  /** A message that does not exist yet is stored at a sequence above all others,
      unacknowledged, exactly as given, unless the guard holds it back. */
  lemma EnqueueExactly(t: Tables, e: OutInput)
    requires Readable(t) && forall s :: s in t.outbound ==> t.outbound[s].messageId != e.messageId
    ensures var r, b := EnqueueEvent(t, e), e.payload.body;
            && (r.Done? <==>
                  && 1 <= e.sequence <= MAX_SAFE && (forall s :: s in t.outbound ==> s < e.sequence)
                  && (e.profiled ==> Parses(e.payload) && e.payload.messageId == e.messageId
                                     && e.payload.sequence == e.sequence)
                  && !(Parses(e.payload) && ForbiddenGeneric(b) && (b.job, b.attempt) in t.intents))
            && (r.Done? ==>
                  r.tables == t.(outbound := t.outbound[e.sequence := OutRow(e.messageId, e.payload, false)],
                                 profiles := if e.profiled then t.profiles + {e.sequence} else t.profiles))
  {
    hide Readable, Parses, ForbiddenGeneric;
    assert !IdUsed(t, e.messageId);
  }

  /** The same message again is no second one: an exact repetition changes nothing,
      anything else under its id is refused. */
  lemma EnqueueAgain(t: Tables, e: OutInput)
    requires exists s :: s in t.outbound && t.outbound[s].messageId == e.messageId
    ensures var r := EnqueueEvent(t, e);
            r.Done? ==>
              && r.tables == t && e.sequence in t.outbound && t.outbound[e.sequence].messageId == e.messageId
              && t.outbound[e.sequence].payload == e.payload && (e.sequence in t.profiles <==> e.profiled)
  {
    hide Readable, Parses, ForbiddenGeneric;
    assert IdUsed(t, e.messageId);
  }

  /** A renewal gives one row a later expiry and touches nothing else. */
  lemma RenewExactly(t: Tables, s: nat, time: int, text: Id, accepted: bool)
    ensures var r := Renew(t, s, time, text, accepted);
            && (r.Done? ==>
                  && s in t.outbound && (t.outbound[s].payload.sentAt.Some? ==>
                              time > t.outbound[s].payload.sentAt.value)
                  && r.tables == t.(outbound := t.outbound[s := t.outbound[s].(payload :=
                       t.outbound[s].payload.(expiry := if accepted then At(time) else BadExpiry(text)))]))
            && (s in t.outbound && (t.outbound[s].payload.sentAt.Some? ==>
                        time > t.outbound[s].payload.sentAt.value) ==>
                  && (s !in t.profiles ==> r.Done?)
                  && (s in t.profiles && RequestOk(t.outbound[s], s) && accepted ==> r.Done?)
                  && (s in t.profiles && !accepted ==> !r.Done?))
  {}

  /** A journal that does not read is left alone by everything that depends on what
      it says, a message held back for owned attempts included. */
  lemma UnreadableIsLeftAlone(t: Tables, step: Step)
    requires !Readable(t)
    requires || step.PrepareStep? || step.AdvanceStep? || step.CommitStep? || step.ReconcileStep? || step.MapStep?
             || (step.EnqueueStep? && Parses(step.input.payload) && ForbiddenGeneric(step.input.payload.body))
    ensures Apply(t, step) == t
  {
    hide Readable, ProposalStatus, Parses, ForbiddenGeneric, RequestOk, OfferOk;
  }

  // ----- acknowledgements -----

  /** Marking: a row is acknowledged afterwards exactly if it was or lies in the
      prefix; nothing else of it changes. */
  ghost predicate MarkedUpTo(t: Tables, t': Tables, prefix: nat) {
    && t' == t.(proven := prefix, outbound := t'.outbound)
    && (forall s :: s in t'.outbound <==> s in t.outbound)
    && forall s :: s in t.outbound ==>
         t'.outbound[s] == t.outbound[s].(acknowledged := t.outbound[s].acknowledged || s <= prefix)
  }

  /** acknowledgeThrough moves the proven prefix to the named row, never back, and
      acknowledges exactly the rows up to it. */
  lemma AcknowledgeExactly(t: Tables, sequence: nat, correlation: Correlation)
    ensures var r := AcknowledgeThrough(t, sequence, correlation);
            && (r.Done? <==>
                  && sequence in t.outbound && t.outbound[sequence].payload.sequence == sequence
                  && t.outbound[sequence].payload.correlation == correlation
                  && (t.proven > 0 ==> exists s :: s in t.outbound && s >= t.proven))
            && (r.Done? ==> MarkedUpTo(t, r.tables, if sequence > t.proven then sequence else t.proven))
  {}

  /** acknowledgeEvent acknowledges exactly the rows of the named message. */
  lemma AcknowledgeEventExactly(t: Tables, id: Id)
    ensures var r := AcknowledgeEvent(t, id);
            && r.Done? && r.tables == t.(outbound := r.tables.outbound)
            && (forall s :: s in r.tables.outbound <==> s in t.outbound)
            && (forall s :: s in t.outbound ==>
                  r.tables.outbound[s]
                  == t.outbound[s].(acknowledged := t.outbound[s].acknowledged || t.outbound[s].messageId == id))
  {}

  /** Some acknowledgement of the run named this message, or a row at or above it. */
  predicate Named(steps: seq<Step>, s: nat, id: Id) {
    exists i :: 0 <= i < |steps|
      && ((steps[i].AckEventStep? && steps[i].acked == id) || (steps[i].AckThroughStep? && steps[i].upto >= s))
  }

  /** Some acknowledgement of the run named a row at or above this one. */
  predicate Passed(steps: seq<Step>, s: nat) {
    exists i :: 0 <= i < |steps| && steps[i].AckThroughStep? && steps[i].upto >= s
  }

  predicate OnlyNamed(t: Tables, steps: seq<Step>) {
    && (forall s :: s in t.outbound && t.outbound[s].acknowledged ==> Named(steps, s, t.outbound[s].messageId))
    && (t.proven > 0 ==> Passed(steps, t.proven))
  }

  lemma NamedStays(steps: seq<Step>, step: Step, s: nat, id: Id)
    ensures Named(steps, s, id) ==> Named(steps + [step], s, id)
    ensures Passed(steps, s) ==> Passed(steps + [step], s)
    ensures step.AckEventStep? && step.acked == id ==> Named(steps + [step], s, id)
    ensures step.AckThroughStep? && step.upto >= s ==> Named(steps + [step], s, id) && Passed(steps + [step], s)
  {
    var all := steps + [step];
    assert all[|steps|] == step && forall i :: 0 <= i < |steps| ==> all[i] == steps[i];
  }

  lemma PassedIsNamed(steps: seq<Step>, prefix: nat, s: nat, id: Id)
    requires Passed(steps, prefix) && s <= prefix
    ensures Named(steps, s, id)
  {}

  /** Rows are only added or annotated: an old row keeps its message. */
  predicate RowsCarry(t: Tables, t': Tables) {
    forall s :: s in t'.outbound && t'.outbound[s].acknowledged ==>
      s in t.outbound && t'.outbound[s].messageId == t.outbound[s].messageId && t.outbound[s].acknowledged
  }

  lemma SameRowsCarry(t: Tables, t': Tables)
    requires t'.outbound == t.outbound
    ensures RowsCarry(t, t')
  {}

  lemma RenewMarksNone(t: Tables, s: nat, time: int, text: Id, accepted: bool)
    ensures var t' := After(t, Renew(t, s, time, text, accepted)); RowsCarry(t, t') && t'.proven == t.proven
  {
    RenewExactly(t, s, time, text, accepted);
    hide Renew;
  }

  lemma OthersMarkNone(t: Tables, step: Step)
    requires !step.AckThroughStep? && !step.AckEventStep?
    ensures RowsCarry(t, Apply(t, step)) && Apply(t, step).proven == t.proven
  {
    hide Readable, Prepare, Advance, Reconcile, MapJob, RecordInbound, ReplaceInbound, Commit, EnqueueEvent, Renew;
    hide RowsCarry, MarkDelivered, AcknowledgeThrough, AcknowledgeEvent;
    match step
    case CommitStep(p, state, granted, e) => CommitMarksNone(t, p, state, granted, e);
    case EnqueueStep(e) => EnqueueMarksNone(t, e);
    case RenewStep(s, time, text, accepted) => RenewMarksNone(t, s, time, text, accepted);
    case _ => OthersKeepRows(t, step);
              SameRowsCarry(t, Apply(t, step));
  }

  lemma OthersKeepRows(t: Tables, step: Step)
    requires !step.AckThroughStep? && !step.AckEventStep?
    requires !step.CommitStep? && !step.EnqueueStep? && !step.RenewStep?
    ensures Apply(t, step).outbound == t.outbound && Apply(t, step).proven == t.proven
  {
    hide Readable, Prepare, Advance, Reconcile, MapJob, RecordInbound, ReplaceInbound, Commit, EnqueueEvent, Renew;
    hide MarkDelivered, AcknowledgeThrough, AcknowledgeEvent;
    match step
    case PrepareStep(offer, session, id, generation) => PrepareFrame(t, offer, session, id, generation);
    case AdvanceStep(owner, version, x) => AdvanceFrame(t, owner, version, x);
    case ReconcileStep(b, state, granted) => ReconcileFrame(t, b, state, granted);
    case MapStep(job, attempt, session, status) => MapFrame(t, job, attempt, session, status);
    case RecordStep(id, s, body, request) => RecordFrame(t, id, s, body, request);
    case ReplaceStep(previous, id, s, body, request) => ReplaceFrame(t, previous, id, s, body, request);
    case DeliverStep(s) => DeliverFrame(t, s);
  }

  lemma CommitMarksNone(t: Tables, p: Proposal, state: StatePayload, granted: bool, e: OutInput)
    ensures var t' := After(t, Commit(t, p, state, granted, e)); RowsCarry(t, t') && t'.proven == t.proven
  {
    hide Readable, RecordOk, ProposalStatus, OperationFits, EventFits, Above, IdUsed;
  }

  lemma EnqueueMarksNone(t: Tables, e: OutInput)
    ensures var t' := After(t, EnqueueEvent(t, e)); RowsCarry(t, t') && t'.proven == t.proven
  {
    hide Readable, RequestOk, Parses, ForbiddenGeneric, Above, IdUsed;
  }

  lemma StepNames(t: Tables, steps: seq<Step>, step: Step)
    requires OnlyNamed(t, steps)
    ensures OnlyNamed(Apply(t, step), steps + [step])
  {
    var t' := Apply(t, step);
    hide Named, Passed;
    if step.AckThroughStep? {
      AcknowledgeExactly(t, step.upto, step.correlation);
    } else if step.AckEventStep? {
      AcknowledgeEventExactly(t, step.acked);
    } else {
      OthersMarkNone(t, step);
    }
    assert step.AckThroughStep? ==> t' == After(t, AcknowledgeThrough(t, step.upto, step.correlation)) by {
      hide AcknowledgeThrough;
    }
    assert step.AckEventStep? ==> t' == After(t, AcknowledgeEvent(t, step.acked)) by { hide AcknowledgeEvent; }
    hide Apply, AcknowledgeThrough, AcknowledgeEvent;
    forall s | s in t'.outbound && t'.outbound[s].acknowledged
      ensures Named(steps + [step], s, t'.outbound[s].messageId)
    {
      var id := t'.outbound[s].messageId;
      NamedStays(steps, step, s, id);
      if t.proven > 0 { NamedStays(steps, step, t.proven, id); }
      if s <= t.proven && t.proven > 0 { PassedIsNamed(steps + [step], t.proven, s, id); }
    }
    if t'.proven > 0 { NamedStays(steps, step, t'.proven, 0); }
  }

  /** In every run a row is acknowledged only if some acknowledgement of the run
      named its message, or a row at or above it. */
  lemma {:induction false} AcknowledgedOnlyIfNamed(steps: seq<Step>)
    ensures OnlyNamed(Run(Empty, steps), steps)
  {
    hide Apply, Named, Passed;
    if steps != [] {
      var n := |steps| - 1;
      AcknowledgedOnlyIfNamed(steps[..n]);
      StepNames(Run(Empty, steps[..n]), steps[..n], steps[n]);
      assert steps == steps[..n] + [steps[n]];
    }
  }

  // ----- legacy mappings -----

  /** mapJob writes one mapping, exactly when no owned job or session is touched and
      the session is bound to no other job. */
  lemma MapExactly(t: Tables, job: Name, attempt: nat, session: Name, status: string)
    requires Readable(t)
    ensures var r := MapJob(t, job, attempt, session, status);
            && (r.Done? <==>
                  && 1 <= attempt <= MAX_SAFE && status != ""
                  && (forall k :: k in t.intents ==>
                        t.intents[k].owner.job != job.base && t.intents[k].owner.session != session.base)
                  && ((job, attempt) in t.mappings ==> t.mappings[(job, attempt)].session == session)
                  && (forall m :: m in t.mappings && t.mappings[m].session == session ==> m == (job, attempt)))
            && (r.Done? ==> r.tables == t.(mappings := t.mappings[(job, attempt) := Mapping(session, status)]))
  {
    hide Readable;
    assert forall k :: k in t.intents ==>
             (Touches((job, attempt), Mapping(session, status), t.intents[k].owner)
              <==> t.intents[k].owner.job == job.base || t.intents[k].owner.session == session.base);
  }

  // ----- the inbound journal -----

  /** A new frame is stored as received, at a free sequence under a new id; the same
      frame again is a duplicate; anything else is refused. */
  lemma RecordExactly(t: Tables, id: Id, s: nat, body: Stored, request: Option<nat>)
    ensures var r := RecordInbound(t, id, s, body, request);
            && (r.Done? && r.value == New ==>
                  && s !in t.inbound && (forall q :: q in t.inbound ==> t.inbound[q].messageId != id)
                  && 1 <= s <= MAX_SAFE
                  && r.tables == t.(inbound := t.inbound[s := InRow(id, body)], receipts := r.tables.receipts))
            && (r.Done? && r.value == Duplicate ==>
                  r.tables == t && s in t.inbound && t.inbound[s] == InRow(id, body))
            && (1 <= s <= MAX_SAFE && request == None && s !in t.receipts ==>
                  if s !in t.inbound && (forall q :: q in t.inbound ==> t.inbound[q].messageId != id)
                  then r.Done? && r.value == New && r.tables.receipts == t.receipts
                  else r.Done? <==> s in t.inbound && t.inbound[s] == InRow(id, body))
  {
    hide CreateReceipt, ParseResponse, ReceiptHolds;
  }

  /** A replacement changes exactly the row it names, from what the caller saw. */
  lemma ReplaceExactly(t: Tables, previous: InRow, id: Id, s: nat, body: Stored, request: Option<nat>)
    requires ReplaceInbound(t, previous, id, s, body, request).Done?
    ensures var t' := ReplaceInbound(t, previous, id, s, body, request).tables;
            && s in t.inbound && t.inbound[s] == previous && !MessageKnown(t, id)
            && t'.inbound == t.inbound[s := InRow(id, body)] && OnlyInbound(t, t')
  {
    hide PrepareReceipt, MessageKnown, Proving, Delivered;
  }

  /** Marks of other messages stay, the replaced message loses its own, and the new
      one is marked only at its own sequence. */
  lemma ReplaceMarks(t: Tables, previous: InRow, id: Id, s: nat, body: Stored, request: Option<nat>, x: Id)
    requires ReplaceInbound(t, previous, id, s, body, request).Done?
    ensures var t' := ReplaceInbound(t, previous, id, s, body, request).tables;
            && (x != id && x != previous.messageId ==>
                  (x in t'.delivered <==> x in t.delivered) && (x in t.delivered ==> t'.delivered[x] == t.delivered[x]))
            && (previous.messageId != id ==> previous.messageId !in t'.delivered)
            && (id in t'.delivered ==> t'.delivered[id] == s && Delivered(t, s))
  {
    ReplacedMarks(t, previous, id, s, body, request);
    hide ReplaceInbound, Delivered;
  }

  lemma ReplacedMarks(t: Tables, previous: InRow, id: Id, s: nat, body: Stored, request: Option<nat>)
    requires ReplaceInbound(t, previous, id, s, body, request).Done?
    ensures var d, kept := ReplaceInbound(t, previous, id, s, body, request).tables.delivered,
                           t.delivered - {previous.messageId, id};
            d == kept || (Delivered(t, s) && d == kept[id := s])
  {
    hide PrepareReceipt, MessageKnown, Proving, Delivered;
  }

  /** The stored body is this message at this sequence. */
  predicate IsMessage(id: Id, s: nat, body: Stored) {
    body.Read? && body.message.messageId == id && body.message.sequence == s
  }

  /** The notice that stands in for a message that expired on its way, for the given
      correlation. */
  predicate ExpiryNotice(id: Id, s: nat, body: Stored, correlation: Correlation) {
    && IsMessage(id, s, body) && body.message.correlation == correlation
    && body.message.body == ErrorResponse("MESSAGE_EXPIRED", "A Connector message expired before delivery.")
  }

  /** What becomes of receipts as a frame is stored: none is made where none is asked
      for; one that exists is never changed, and its row gives way only to the expiry
      notice or to the very answer it records; a new one records the answer to the
      request named, in a free place or where the notice stood in for it. */
  lemma ReceiptsExactly(t: Tables, id: Id, s: nat, body: Stored, request: Option<nat>, replacing: bool)
    ensures var p := PrepareReceipt(t, id, s, body, request, replacing);
            if s in t.receipts then
              var r := t.receipts[s];
              && !p.Insert?
              && (p == Nothing <==>
                    && ReceiptHolds(t, s, r)
                    && (if request.None? then ExpiryNotice(id, s, body, r.responseCorrelation)
                        else IsMessage(id, s, body)
                             && CreateReceipt(t.outbound, t.profiles, request.value, body.message) == Some(r)))
            else if request.None? then p == Nothing
            else
              && !p.Nothing?
              && (p.Insert? <==>
                    && IsMessage(id, s, body)
                    && CreateReceipt(t.outbound, t.profiles, request.value, body.message).Some?
                    && (s in t.inbound ==>
                          replacing
                            && ExpiryNotice(t.inbound[s].messageId, s, t.inbound[s].body, body.message.correlation)))
              && (p.Insert? ==> Some(p.receipt) == CreateReceipt(t.outbound, t.profiles, request.value, body.message))
  {
    hide CreateReceipt, ReceiptHolds;
  }

  /** Completion follows the proof: the new row is complete exactly if the old one was
      and a receipt proves the sequence to be a state answer. */
  lemma CompletionFollows(t: Tables, previous: InRow, id: Id, s: nat, body: Stored, request: Option<nat>)
    requires ReplaceInbound(t, previous, id, s, body, request).Done?
    ensures var t' := ReplaceInbound(t, previous, id, s, body, request).tables;
            id in t'.delivered <==> Delivered(t, s) && s in t'.receipts && t'.receipts[s].response.StateResponse?
  {
    ReceiptsExactly(t, id, s, body, request, true);
    if request.Some? && IsMessage(id, s, body)
      && CreateReceipt(t.outbound, t.profiles, request.value, body.message).Some? {
      ReceiptTies(t.outbound, t.profiles, request.value, body.message);
    }
    hide PrepareReceipt, MessageKnown, CreateReceipt, ReceiptHolds;
  }

  lemma UnknownId(t: Tables, id: Id)
    ensures !MessageKnown(t, id) <==> forall q :: q in t.inbound ==> t.inbound[q].messageId != id
  {}

  /** Marking a stored frame delivered marks its message and no other. */
  lemma DeliverExactly(t: Tables, s: nat)
    ensures var r := MarkDelivered(t, s);
            && (r.Done? <==> s in t.inbound)
            && (r.Done? ==> r.tables == t.(delivered := t.delivered[t.inbound[s].messageId := s]))
  {}

  /** A receipt ties one answer to one profiled request that it correlates with: the
      state of the very job, attempt and nonce that were asked about, or one of the
      rejections a coordinating server gives to that kind of request. */
  lemma ReceiptTies(rows: map<nat, OutRow>, profiles: set<nat>, n: nat, response: ServerMessage)
    requires CreateReceipt(rows, profiles, n, response).Some?
    ensures n in rows && n in profiles
    ensures var r, q := CreateReceipt(rows, profiles, n, response).value, rows[n].payload;
            && r.requestSequence == n == q.sequence && r.requestId == rows[n].messageId == q.messageId
            && r.requestCorrelation == q.correlation == response.correlation == r.responseCorrelation
            && r.responseSequence == response.sequence && r.response == response.body
            && (r.response.StateResponse? ==>
                  && q.body.JobSync? && r.requestType == SyncRequest
                  && r.response.job == q.body.job && r.response.requestedAttempt == q.body.attempt
                  && r.response.nonce == q.body.nonce && r.response.requestId == q.messageId
                  && r.response.requestSequence == n)
            && (!r.response.StateResponse? ==>
                  && r.response.ErrorResponse?
                  && match r.requestType
                     case SyncRequest =>
                       q.body.JobSync?
                       && r.response == ErrorResponse("JOB_AUTHORITY_UNAVAILABLE", "The job authority is unavailable.")
                     case ClaimRequest =>
                       q.body.JobClaim? && r.response.code == "CLAIM_REJECTED" && Conflicted(r.response.text)
                     case EventRequest =>
                       q.body.JobEvent? && r.response.code == "EVENT_REJECTED" && Conflicted(r.response.text)
                     case ApprovalRequest =>
                       q.body.ApprovalRequested? && r.response.code == "EVENT_REJECTED" && Conflicted(r.response.text)
                     case CancelledRequest =>
                       q.body.JobCancelled? && r.response.code == "EVENT_REJECTED" && Conflicted(r.response.text))
  {}

  predicate Conflicted(text: string) {
    text in {"The job authority has changed.", "The job business limit has been reached."}
  }

  /** And every such answer gets one. */
  lemma StateGetsReceipt(rows: map<nat, OutRow>, profiles: set<nat>, n: nat, m: ServerMessage)
    requires n in rows && n in profiles && RequestOk(rows[n], n) && rows[n].payload.body.JobSync?
    requires m.correlation == rows[n].payload.correlation && m.body.StateResponse?
    requires var q := rows[n].payload;
             m.body.job == q.body.job && m.body.requestedAttempt == q.body.attempt && m.body.nonce == q.body.nonce
             && m.body.requestId == q.messageId && m.body.requestSequence == q.sequence
    ensures CreateReceipt(rows, profiles, n, m).Some?
  {}
}
