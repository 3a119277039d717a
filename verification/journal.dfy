/** The journal's transactions (packages/harness-plugin/src/store/plugin-store.ts).
    Each either commits new tables with a value or refuses and changes nothing. */
module Journal {
  import opened Common
  import opened JobState
  import opened Deadlines
  import opened JournalTypes

  datatype Refusal = InvalidInput | Conflicting | Revoked | Corrupt | NotMonotonic | Absent | NotStored

  datatype Result<+T> = Done(tables: Tables, value: T) | Refused(why: Refusal)

  function After<T>(t: Tables, r: Result<T>): Tables { if r.Done? then r.tables else t }

  // ----- reading the journal -----

  /** parseRequest: the row's payload is the message the row says it is. */
  predicate RequestOk(row: OutRow, sequence: nat) {
    Parses(row.payload) && row.payload.messageId == row.messageId && row.payload.sequence == sequence
  }

  /** A mapping that belongs to the owner by job or by session, in any letter case. */
  predicate Touches(key: (Name, nat), m: Mapping, o: Owner) {
    Lower(key.0) == Canonical(o.job) || Lower(m.session) == Canonical(o.session)
  }

  function MappingKey(o: Owner): (Name, nat) { (Canonical(o.job), o.attempt) }

  /** The outbound row a local terminal record cites is still that message. */
  predicate Cited(t: Tables, r: TerminalRecord)
    requires r.Local?
  {
    && r.outSequence in t.outbound && r.outSequence in t.profiles
    && var row := t.outbound[r.outSequence];
       && RequestOk(row, r.outSequence) && row.messageId == r.outId && row.payload.sentAt == Some(r.outSentAt)
       && row.payload.correlation == r.correlation && row.payload.body == r.payload
  }

  /** The checks readOwnedIntents makes on the terminal marker of one intent. */
  predicate MarkerOk(t: Tables, k: Key, v: Intent) {
    if v.phase.Closed? then
      && k in t.terminals && RecordOk(t.terminals[k]) && v == Successor(t.terminals[k])
      && (t.terminals[k].Local? ==> Cited(t, t.terminals[k]))
    else k !in t.terminals
  }

  function StatusOf(t: Tables, k: Key, v: Intent): string {
    if v.phase.Closed? && k in t.terminals then StatusText(t.terminals[k].status) else PhaseText(v.phase)
  }

  /** Exactly one mapping touches the owner: its own, with the right status. */
  predicate MappingOk(t: Tables, k: Key, v: Intent) {
    && MappingKey(v.owner) in t.mappings
    && t.mappings[MappingKey(v.owner)] == Mapping(Canonical(v.owner.session), StatusOf(t, k, v))
    && (forall m :: m in t.mappings && Touches(m, t.mappings[m], v.owner) ==> m == MappingKey(v.owner))
  }

  predicate IndexOk(t: Tables, k: Key, v: Intent) {
    && k == KeyOf(v.owner) && IntentOk(v)
    && v.owner.job in t.active && t.active[v.owner.job] == v.owner
    && v.owner.generation in t.generations && t.generations[v.owner.generation] == v.owner
  }

  predicate RowOk(t: Tables, k: Key)
    requires k in t.intents
  {
    IndexOk(t, k, t.intents[k]) && MarkerOk(t, k, t.intents[k]) && MappingOk(t, k, t.intents[k])
  }

  // Nothing in an index or marker without an intent behind it.

  predicate ActiveOwned(t: Tables) {
    forall j :: j in t.active ==> KeyOf(t.active[j]) in t.intents && t.intents[KeyOf(t.active[j])].owner.job == j
  }

  predicate GenerationsOwned(t: Tables) {
    forall g :: g in t.generations ==>
      KeyOf(t.generations[g]) in t.intents && t.intents[KeyOf(t.generations[g])].owner.generation == g
  }

  predicate MarkersOwned(t: Tables) {
    forall k :: k in t.terminals ==> k in t.intents && t.intents[k].phase.Closed?
  }

  predicate RowsOk(t: Tables) { forall k :: k in t.intents ==> RowOk(t, k) }

  /** Journal statuses belong to journal records. */
  predicate StatusesOwned(t: Tables) {
    forall m :: m in t.mappings && JournalStatus(t.mappings[m].status) ==>
      m.0 == Canonical(m.0.base) && (m.0.base, m.1) in t.intents
  }

  /** readOwnedIntents reports no corruption. */
  predicate Readable(t: Tables) {
    RowsOk(t) && ActiveOwned(t) && GenerationsOwned(t) && MarkersOwned(t) && StatusesOwned(t)
  }

  // ----- preparing and advancing an intent -----

  /** initialOwnedIntent. */
  function Initial(offer: ServerMessage, session: Id, initialMessageId: Id, generation: Id): Intent
    requires offer.body.OfferResponse? && offer.correlation.Random?
  {
    var o := offer.body.offer;
    Intent(Owner(o.job, o.attempt, o.repository, session, generation), o.lease,
           OfferRef(offer.messageId, offer.sequence, offer.correlation.id, offer.sentAt, offer.expiresAt),
           initialMessageId, o.request, Prepared, 0, None, None, None)
  }

  function Original(v: Intent): Intent {
    v.(phase := Prepared, version := 0, mode := None, evidence := None, unavailable := None)
  }

  predicate OfferOk(offer: ServerMessage) {
    && offer.body.OfferResponse? && offer.correlation.Random? && 1 <= offer.body.offer.attempt <= MAX_INT32
    && 1 <= offer.sequence <= MAX_SAFE && offer.sentAt < offer.expiresAt
  }

  predicate Taken(t: Tables, o: Owner) {
    || (exists k ::
          k in t.intents && (t.intents[k].owner.job == o.job || t.intents[k].owner.generation == o.generation))
    || (exists m :: m in t.mappings && Touches(m, t.mappings[m], o))
  }

  function AddIntent(t: Tables, v: Intent): Tables {
    t.(intents := t.intents[KeyOf(v.owner) := v],
       active := t.active[v.owner.job := v.owner],
       generations := t.generations[v.owner.generation := v.owner],
       mappings := t.mappings[MappingKey(v.owner) := Mapping(Canonical(v.owner.session), PhaseText(v.phase))])
  }

  /** prepareOwnedIntent. */
  function Prepare(t: Tables, offer: ServerMessage, session: Id, initialMessageId: Id, generation: Id): Result<Intent> {
    if !OfferOk(offer) then Refused(InvalidInput)
    else if !Readable(t) then Refused(Corrupt)
    else
      var v := Initial(offer, session, initialMessageId, generation);
      var k := KeyOf(v.owner);
      if k in t.intents then (if Original(t.intents[k]) == v then Done(t, t.intents[k]) else Refused(Conflicting))
      else if offer.sequence !in t.inbound || t.inbound[offer.sequence].messageId != offer.messageId then
        Refused(Conflicting)
      else if t.inbound[offer.sequence].body.Unreadable? then Refused(Corrupt)
      else if t.inbound[offer.sequence].body.message != offer then Refused(Conflicting)
      else if Taken(t, v.owner) then Refused(Conflicting)
      else Done(AddIntent(t, v), v)
  }

  datatype Transition =
    | ToCreating(mode: Mode) | ToSubmitting | ToStarted(evidence: Evidence) | ToUnavailable(reason: Unavailable)

  /** The next record of an intent; None is a conflict. */
  function Advanced(v: Intent, x: Transition): Option<Intent> {
    match x
    case ToUnavailable(reason) => if v.unavailable.Some? then None else Some(v.(unavailable := Some(reason)))
    case ToCreating(mode) =>
      if v.unavailable.None? && v.phase.Prepared? then Some(v.(phase := Creating, mode := Some(mode))) else None
    case ToSubmitting => if v.unavailable.None? && v.phase.Creating? then Some(v.(phase := Submitting)) else None
    case ToStarted(e) =>
      if v.unavailable.None? && v.phase.Submitting? && e.session == v.owner.session && e.messageId == v.initialMessageId
         && e.digest == v.digest
      then Some(v.(phase := Started, evidence := Some(e))) else None
  }

  function PutIntent(t: Tables, v: Intent): Tables {
    t.(intents := t.intents[KeyOf(v.owner) := v],
       mappings := t.mappings[MappingKey(v.owner) := Mapping(Canonical(v.owner.session), PhaseText(v.phase))])
  }

  /** advanceOwnedIntent. */
  function Advance(t: Tables, owner: Owner, version: nat, x: Transition): Result<Intent> {
    if x.ToStarted? && x.evidence.eventSequence > MAX_SAFE then Refused(InvalidInput)
    else if !Readable(t) then Refused(Corrupt)
    else if KeyOf(owner) !in t.intents then Refused(Conflicting)
    else
      var v := t.intents[KeyOf(owner)];
      if v.phase.Closed? || v.owner != owner || v.version != version then Refused(Conflicting)
      else if x.ToUnavailable? && v.unavailable == Some(x.reason) then Done(t, v)
      else
        var next := Advanced(v, x);
        if next.None? || version >= MAX_SAFE then Refused(Conflicting)
        else Done(PutIntent(t, next.value.(version := version + 1)), next.value.(version := version + 1))
  }

  // ----- terminal records -----

  /** writeTerminal. */
  function AddTerminal(t: Tables, r: TerminalRecord): Tables {
    var v := Successor(r);
    t.(intents := t.intents[KeyOf(v.owner) := v],
       terminals := t.terminals[KeyOf(v.owner) := r],
       mappings := t.mappings[MappingKey(v.owner) := Mapping(Canonical(v.owner.session), StatusText(r.status))])
  }

  datatype OutInput = OutInput(messageId: Id, sequence: nat, payload: Payload, profiled: bool)

  predicate IdUsed(t: Tables, id: Id) { exists s :: s in t.outbound && t.outbound[s].messageId == id }

  predicate Above(t: Tables, sequence: nat) { forall s :: s in t.outbound ==> s < sequence }

  function AddOutbound(t: Tables, e: OutInput): Tables {
    t.(outbound := t.outbound[e.sequence := OutRow(e.messageId, e.payload, false)],
       profiles := if e.profiled then t.profiles + {e.sequence} else t.profiles)
  }

  datatype Relation = Same | Competing

  datatype Committed =
    | Committed(winner: TerminalRecord)
    | Existing(relation: Relation, record: TerminalRecord)
    | RemoteWon(record: TerminalRecord)

  function Winner(c: Committed): TerminalRecord {
    match c
    case Committed(r) => r
    case Existing(_, r) => r
    case RemoteWon(r) => r
  }

  function MarkerOf(t: Tables, v: Intent): Option<TerminalRecord> {
    if v.phase.Closed? && KeyOf(v.owner) in t.terminals then Some(t.terminals[KeyOf(v.owner)]) else None
  }

  /** What a repeated or competing commit is answered with. */
  function AgainstExisting(r: TerminalRecord, p: Proposal): Option<Committed> {
    if r.Remote? then Some(RemoteWon(r))
    else if r.correlation != p.correlation then Some(Existing(Competing, r))
    else if r.operation == p.binding.operation && r.payload == p.payload then Some(Existing(Same, r))
    else None
  }

  function LocalRecord(v: Intent, p: Proposal, status: JobStatus, e: OutInput): TerminalRecord
    requires e.payload.sentAt.Some?
  {
    Local(v, v.version + 1, p.binding.operation, p.correlation, p.payload, status, e.messageId, e.sequence,
          e.payload.sentAt.value)
  }

  /** The event the factory supplies is the proposal's own message. */
  predicate EventFits(e: OutInput, p: Proposal) {
    && RequestOk(OutRow(e.messageId, e.payload, false), e.sequence) && e.profiled
    && e.payload.correlation == p.correlation && e.payload.body == p.payload
  }

  /** commitTerminal. `granted` says that every check of the authority passes,
      and `state` is the snapshot it carries. */
  function Commit(t: Tables, p: Proposal, state: StatePayload, granted: bool, e: OutInput): Result<Committed> {
    var status, o, op := ProposalStatus(p), p.binding.owner, p.binding.operation;
    if status.None? then Refused(InvalidInput)
    else if !granted then Refused(Revoked)
    else if !Readable(t) then Refused(Corrupt)
    else if KeyOf(o) !in t.intents || t.intents[KeyOf(o)].owner != o then Refused(Conflicting)
    else
      var v := t.intents[KeyOf(o)];
      var marker := MarkerOf(t, v);
      var before := if marker.Some? then marker.value.predecessor else v;
      if before.version != p.binding.expectedVersion || !OperationFits(before, op)
         || state.currentAttempt != o.attempt || (before.mode.Some? && before.mode != Some(state.mode)) then
            Refused(Conflicting)
      else if marker.Some? then
        var answer := AgainstExisting(marker.value, p);
        if answer.Some? then Done(t, answer.value) else Refused(Conflicting)
      else if v.version >= MAX_SAFE || v.phase.Closed? then Refused(Conflicting)
      else if !EventFits(e, p) || e.sequence < 1 || e.sequence > MAX_SAFE then Refused(InvalidInput)
      else if !Above(t, e.sequence) then Refused(NotMonotonic)
      else if IdUsed(t, e.messageId) then Refused(NotStored)
      else
        var r := LocalRecord(v, p, status.value, e);
        if !RecordOk(r) then Refused(Corrupt)
        else Done(AddOutbound(AddTerminal(t, r), e), Committed(r))
  }

  datatype Reconciled = Reconciled(record: TerminalRecord) | AlreadyClosed(record: TerminalRecord)

  /** reconcileTerminal. */
  function Reconcile(t: Tables, b: Binding, state: StatePayload, granted: bool): Result<Reconciled> {
    if !b.operation.ReconcileOp? then Refused(InvalidInput)
    else if !granted then Refused(Revoked)
    else if !Readable(t) then Refused(Corrupt)
    else if KeyOf(b.owner) !in t.intents || t.intents[KeyOf(b.owner)].owner != b.owner then Refused(Conflicting)
    else
      var v := t.intents[KeyOf(b.owner)];
      if v.version != b.expectedVersion || v.mode != Some(state.mode) || state.currentAttempt != b.owner.attempt
         || !Terminal(state.status) then Refused(Conflicting)
      else
        var marker := MarkerOf(t, v);
        if marker.Some? then
          if marker.value.Remote? && marker.value.status != state.status then Refused(Conflicting)
          else Done(t, AlreadyClosed(marker.value))
        else
          var r := Remote(v, v.version + 1, state.status, state);
          if !RecordOk(r) then Refused(Corrupt) else Done(AddTerminal(t, r), Reconciled(r))
  }

  // ----- the outbound queue -----

  const GENERIC_EVENTS: set<string> := {"stage.changed", "progress.updated", "tool.started", "tool.finished"}

  /** forbiddenOwnedGeneric: what only the terminal commit may send for an owned attempt. */
  predicate ForbiddenGeneric(b: Body) {
    b.JobCancelled? || (b.JobEvent? && (b.eventType !in GENERIC_EVENTS || HasStatus(b.detail)))
  }

  /** enqueueEvent. */
  function EnqueueEvent(t: Tables, e: OutInput): Result<()> {
    if e.sequence < 1 || e.sequence > MAX_SAFE then Refused(InvalidInput)
    else if e.profiled && !RequestOk(OutRow(e.messageId, e.payload, false), e.sequence) then Refused(InvalidInput)
    else if Parses(e.payload) && ForbiddenGeneric(e.payload.body) && !Readable(t) then Refused(Corrupt)
    else if Parses(e.payload) && ForbiddenGeneric(e.payload.body)
      && (e.payload.body.job, e.payload.body.attempt) in t.intents then Refused(Conflicting)
    else if IdUsed(t, e.messageId) then
      if e.sequence in t.outbound && t.outbound[e.sequence].messageId == e.messageId
         && t.outbound[e.sequence].payload == e.payload && (e.sequence in t.profiles) == e.profiled
      then Done(t, ()) else Refused(NotMonotonic)
    else if !Above(t, e.sequence) then Refused(NotMonotonic)
    else Done(AddOutbound(t, e), ())
  }

  /** renewDelivery: the time the new text denotes to Date.parse, and whether the
      protocol schema accepts the text. */
  function Renew(t: Tables, sequence: nat, time: int, text: Id, accepted: bool): Result<()> {
    if sequence !in t.outbound then Refused(Absent)
    else
      var row := t.outbound[sequence];
      var payload := row.payload.(expiry := if accepted then At(time) else BadExpiry(text));
      if row.payload.sentAt.Some? && time <= row.payload.sentAt.value then Refused(InvalidInput)
      else if sequence in t.profiles && !RequestOk(row.(payload := payload), sequence) then Refused(InvalidInput)
      else Done(t.(outbound := t.outbound[sequence := row.(payload := payload)]), ())
  }

  function Acknowledged(rows: map<nat, OutRow>, upto: nat): map<nat, OutRow> {
    map s | s in rows :: if s <= upto then rows[s].(acknowledged := true) else rows[s]
  }

  /** acknowledgeThrough. */
  function AcknowledgeThrough(t: Tables, sequence: nat, correlation: Correlation): Result<()> {
    if sequence !in t.outbound then Refused(Absent)
    else if t.outbound[sequence].payload.sequence != sequence
      || t.outbound[sequence].payload.correlation != correlation then Refused(InvalidInput)
    else if t.proven > 0 && Above(t, t.proven) then Refused(InvalidInput)
    else
      var prefix := if sequence >= t.proven then sequence else t.proven;
      Done(t.(proven := prefix, outbound := Acknowledged(t.outbound, prefix)), ())
  }

  /** acknowledgeEvent. */
  function AcknowledgeEvent(t: Tables, id: Id): Result<()> {
    Done(t.(outbound := map s | s in t.outbound ::
              if t.outbound[s].messageId == id then t.outbound[s].(acknowledged := true) else t.outbound[s]), ())
  }

  // ----- legacy mappings -----

  /** mapJob. */
  function MapJob(t: Tables, job: Name, attempt: nat, session: Name, status: string): Result<()> {
    if attempt < 1 || attempt > MAX_SAFE || status == "" then Refused(InvalidInput)
    else if !Readable(t) then Refused(Corrupt)
    else if exists k :: k in t.intents && Touches((job, attempt), Mapping(session, status), t.intents[k].owner) then
      Refused(Conflicting)
    else if (job, attempt) in t.mappings && t.mappings[(job, attempt)].session != session then Refused(Conflicting)
    else if exists m :: m in t.mappings && t.mappings[m].session == session && m != (job, attempt) then
      Refused(Conflicting)
    else Done(t.(mappings := t.mappings[(job, attempt) := Mapping(session, status)]), ())
  }
}
