/** SqlitePluginStore as an object: one field per table, which its methods update,
    each method one transaction (packages/harness-plugin/src/store/plugin-store.ts). */
module JournalStore {
  import opened Common
  import opened JobState
  import opened Deadlines
  import opened JournalTypes
  import opened Journal
  import opened Inbound
  import opened JournalRuns
  import JournalTheorems

  /** The keys of the journal's namespaces in the metadata table. */
  datatype MetaKey = IntentKey(key: Key) | ActiveKey(job: Id) | GenerationKey(generation: Id) | MarkerKey(key: Key)

  function IntentRows(t: Tables): set<MetaKey> { set k | k in t.intents :: IntentKey(k) }
  function ActiveRows(t: Tables): set<MetaKey> { set j | j in t.active :: ActiveKey(j) }
  function GenerationRows(t: Tables): set<MetaKey> { set g | g in t.generations :: GenerationKey(g) }
  function MarkerRows(t: Tables): set<MetaKey> { set k | k in t.terminals :: MarkerKey(k) }

  function MetaRows(t: Tables): set<MetaKey> { IntentRows(t) + ActiveRows(t) + GenerationRows(t) + MarkerRows(t) }

  /** The rows that the record at `k` accounts for. */
  function RowsOf(t: Tables, k: Key): set<MetaKey>
    requires k in t.intents
  {
    var o := t.intents[k].owner;
    {IntentKey(k), ActiveKey(o.job), GenerationKey(o.generation)}
    + (if t.intents[k].phase.Closed? then {MarkerKey(k)} else {})
  }

  ghost predicate Accounts(t: Tables, done: set<Key>, consumed: set<MetaKey>) {
    && done <= t.intents.Keys && (forall k :: k in done ==> RowOk(t, k))
    && (forall x :: x in consumed <==> exists k :: k in done && x in RowsOf(t, k))
  }

  lemma RowsOfPresent(t: Tables, k: Key)
    requires k in t.intents && RowOk(t, k)
    ensures RowsOf(t, k) <= MetaRows(t)
  {
    hide RecordOk, IntentOk, MappingOk;
  }

  /** Two records never account for one index row. */
  lemma RowsOfDistinct(t: Tables, k: Key, j: Key)
    requires k in t.intents && j in t.intents && RowOk(t, k) && RowOk(t, j) && k != j
    ensures t.intents[k].owner.job != t.intents[j].owner.job
            && t.intents[k].owner.generation != t.intents[j].owner.generation
  {
    hide RecordOk, IntentOk, MarkerOk, MappingOk;
    var u, v := t.intents[k].owner, t.intents[j].owner;
    assert t.active[u.job] == u && t.active[v.job] == v && t.generations[u.generation] == u
           && t.generations[v.generation] == v;
  }

  /** All rows accounted for is the same as no strays. */
  lemma AllAccounted(t: Tables, consumed: set<MetaKey>)
    requires Accounts(t, t.intents.Keys, consumed)
    ensures |consumed| == |MetaRows(t)| <==> ActiveOwned(t) && GenerationsOwned(t) && MarkersOwned(t)
  {
    hide RowOk;
    forall x | x in consumed ensures x in MetaRows(t) {
      var k :| k in t.intents.Keys && x in RowsOf(t, k);
      RowsOfPresent(t, k);
    }
    SubsetSize(consumed, MetaRows(t));
    if consumed == MetaRows(t) { EveryRowOwned(t, consumed); }
    if ActiveOwned(t) && GenerationsOwned(t) && MarkersOwned(t) {
      forall x | x in MetaRows(t) ensures x in consumed { RowIsOwned(t, x); }
    }
  }

  lemma EveryRowOwned(t: Tables, consumed: set<MetaKey>)
    requires Accounts(t, t.intents.Keys, consumed) && consumed == MetaRows(t)
    ensures ActiveOwned(t) && GenerationsOwned(t) && MarkersOwned(t)
  {
    hide RowOk, Accounts, MetaRows;
    forall j | j in t.active ensures KeyOf(t.active[j]) in t.intents && t.intents[KeyOf(t.active[j])].owner.job == j {
      var k := WhoseRow(t, consumed, ActiveKey(j));
      IndexesAgree(t, k);
    }
    forall g | g in t.generations
      ensures KeyOf(t.generations[g]) in t.intents && t.intents[KeyOf(t.generations[g])].owner.generation == g
    {
      var k := WhoseRow(t, consumed, GenerationKey(g));
      IndexesAgree(t, k);
    }
    forall k | k in t.terminals ensures k in t.intents && t.intents[k].phase.Closed? {
      var j := WhoseRow(t, consumed, MarkerKey(k));
    }
  }

  lemma WhoseRow(t: Tables, consumed: set<MetaKey>, x: MetaKey) returns (k: Key)
    requires Accounts(t, t.intents.Keys, consumed) && consumed == MetaRows(t)
    requires match x
             case IntentKey(k) => k in t.intents
             case ActiveKey(j) => j in t.active
             case GenerationKey(g) => g in t.generations
             case MarkerKey(k) => k in t.terminals
    ensures k in t.intents && RowOk(t, k) && x in RowsOf(t, k)
  {
    hide RowOk, RowsOf;
    assert x in MetaRows(t);
    k :| k in t.intents.Keys && x in RowsOf(t, k);
  }

  lemma IndexesAgree(t: Tables, k: Key)
    requires k in t.intents && RowOk(t, k)
    ensures var o := t.intents[k].owner;
            k == KeyOf(o) && o.job in t.active && t.active[o.job] == o && o.generation in t.generations
              && t.generations[o.generation] == o
  {}

  lemma RowIsOwned(t: Tables, x: MetaKey)
    requires ActiveOwned(t) && GenerationsOwned(t) && MarkersOwned(t) && x in MetaRows(t)
    ensures exists k :: k in t.intents.Keys && x in RowsOf(t, k)
  {
    match x
    case IntentKey(k) => assert x in RowsOf(t, k);
    case ActiveKey(j) => assert x in RowsOf(t, KeyOf(t.active[j]));
    case GenerationKey(g) => assert x in RowsOf(t, KeyOf(t.generations[g]));
    case MarkerKey(k) => assert x in RowsOf(t, k);
  }

  lemma OneMoreAccounted(t: Tables, done: set<Key>, consumed: set<MetaKey>, k: Key)
    requires Accounts(t, done, consumed) && k in t.intents && k !in done && RowOk(t, k)
    ensures Accounts(t, done + {k}, consumed + RowsOf(t, k))
  {
    hide RowOk, RowsOf;
  }

  lemma AlreadyConsumed(t: Tables, done: set<Key>, consumed: set<MetaKey>, k: Key)
    requires Accounts(t, done, consumed) && k in t.intents && k !in done
    requires ActiveKey(t.intents[k].owner.job) in consumed || GenerationKey(t.intents[k].owner.generation) in consumed
    ensures !RowOk(t, k)
  {
    hide RowOk;
    var o := t.intents[k].owner;
    var x := if ActiveKey(o.job) in consumed then ActiveKey(o.job) else GenerationKey(o.generation);
    var j :| j in done && x in RowsOf(t, j);
    if RowOk(t, k) { RowsOfDistinct(t, k, j); }
  }

  /** readOwnedIntents: walks the records, ticking off every index row each one
      accounts for, and then compares the count with what is stored. */
  method ReadOwnedIntents(t: Tables) returns (ok: bool, records: map<Key, Intent>)
    ensures ok == Readable(t)
    ensures ok ==> records == t.intents
  {
    hide Accounts, RowOk, Readable, RowsOf, StatusesOwned, MetaRows, Progress;
    var consumed: set<MetaKey> := {};
    var todo := t.intents.Keys;
    records := map[];
    NothingAccounted(t);
    NothingRead(t);
    assert records.Keys == {};
    while todo != {}
      invariant Progress(t, records, todo)
      invariant Accounts(t, records.Keys, consumed)
      decreases |todo|
    {
      var k :| k in todo;
      OneMoreRecord(t, records, todo, k);
      var o := t.intents[k].owner;
      if ActiveKey(o.job) in consumed || GenerationKey(o.generation) in consumed {
        AlreadyConsumed(t, records.Keys, consumed, k);
        RowBreaks(t, k);
        return false, map[];
      }
      if !RowOk(t, k) {
        RowBreaks(t, k);
        return false, map[];
      }
      OneMoreAccounted(t, records.Keys, consumed, k);
      consumed := consumed + RowsOf(t, k);
      records, todo := records[k := t.intents[k]], todo - {k};
    }
    AllRecorded(t, records);
    ok := |consumed| == |MetaRows(t)| && StatusesOwned(t);
    ReadableIff(t, consumed);
  }

  /** The records read so far and the keys still to read. */
  ghost predicate Progress(t: Tables, records: map<Key, Intent>, todo: set<Key>) {
    && todo <= t.intents.Keys && records.Keys == t.intents.Keys - todo
    && forall k :: k in records ==> records[k] == t.intents[k]
  }

  lemma NothingRead(t: Tables)
    ensures Progress(t, map[], t.intents.Keys)
  {}

  lemma OneMoreRecord(t: Tables, records: map<Key, Intent>, todo: set<Key>, k: Key)
    requires Progress(t, records, todo) && k in todo
    ensures k in t.intents && k !in records.Keys && records[k := t.intents[k]].Keys == records.Keys + {k}
    ensures Progress(t, records[k := t.intents[k]], todo - {k})
  {}

  lemma AllRecorded(t: Tables, records: map<Key, Intent>)
    requires Progress(t, records, {})
    ensures records.Keys == t.intents.Keys && records == t.intents
  {}

  lemma NothingAccounted(t: Tables)
    ensures Accounts(t, {}, {})
  {}

  lemma ReadableIff(t: Tables, consumed: set<MetaKey>)
    requires Accounts(t, t.intents.Keys, consumed)
    ensures Readable(t) <==> |consumed| == |MetaRows(t)| && StatusesOwned(t)
  {
    AllAccounted(t, consumed);
    hide RowOk, ActiveOwned, GenerationsOwned, MarkersOwned, StatusesOwned;
    assert RowsOk(t);
  }

  lemma RowBreaks(t: Tables, k: Key)
    requires k in t.intents && !RowOk(t, k)
    ensures !Readable(t)
  {
    hide RowOk;
    assert !RowsOk(t);
  }

  // Every transaction keeps the invariant, as a step of a run.

  lemma PrepareGood(t: Tables, offer: ServerMessage, session: Id, id: Id, generation: Id)
    requires Inv(t)
    ensures Inv(After(t, Prepare(t, offer, session, id, generation)))
  {
    hide Inv, Prepare;
    StepSound(t, PrepareStep(offer, session, id, generation));
  }

  lemma AdvanceGood(t: Tables, owner: Owner, version: nat, x: Transition)
    requires Inv(t)
    ensures Inv(After(t, Advance(t, owner, version, x)))
  {
    hide Inv, Advance;
    StepSound(t, AdvanceStep(owner, version, x));
  }

  lemma CommitGood(t: Tables, p: Proposal, state: StatePayload, granted: bool, e: OutInput)
    requires Inv(t)
    ensures Inv(After(t, Commit(t, p, state, granted, e)))
  {
    hide Inv, Commit;
    StepSound(t, CommitStep(p, state, granted, e));
  }

  lemma ReconcileGood(t: Tables, b: Binding, state: StatePayload, granted: bool)
    requires Inv(t)
    ensures Inv(After(t, Reconcile(t, b, state, granted)))
  {
    hide Inv, Reconcile;
    StepSound(t, ReconcileStep(b, state, granted));
  }

  lemma EnqueueGood(t: Tables, e: OutInput)
    requires Inv(t)
    ensures Inv(After(t, EnqueueEvent(t, e)))
  {
    hide Inv, EnqueueEvent;
    StepSound(t, EnqueueStep(e));
  }

  lemma ReplaceGood(t: Tables, previous: InRow, id: Id, s: nat, body: Stored, request: Option<nat>)
    requires Inv(t)
    ensures Inv(After(t, ReplaceInbound(t, previous, id, s, body, request)))
  {
    hide Inv, ReplaceInbound;
    StepSound(t, ReplaceStep(previous, id, s, body, request));
  }

  lemma RenewGood(t: Tables, s: nat, time: int, text: Id, accepted: bool)
    requires Inv(t)
    ensures Inv(After(t, Renew(t, s, time, text, accepted)))
  {
    hide Inv, Renew;
    StepSound(t, RenewStep(s, time, text, accepted));
  }

  lemma RecordGood(t: Tables, id: Id, s: nat, body: Stored, request: Option<nat>)
    requires Inv(t)
    ensures Inv(After(t, RecordInbound(t, id, s, body, request)))
  {
    hide Inv, RecordInbound;
    StepSound(t, RecordStep(id, s, body, request));
  }

  lemma AckThroughGood(t: Tables, s: nat, c: Correlation)
    requires Inv(t)
    ensures Inv(After(t, AcknowledgeThrough(t, s, c)))
  {
    hide Inv, AcknowledgeThrough;
    StepSound(t, AckThroughStep(s, c));
  }

  lemma AckEventGood(t: Tables, id: Id)
    requires Inv(t)
    ensures Inv(After(t, AcknowledgeEvent(t, id)))
  {
    hide Inv, AcknowledgeEvent;
    StepSound(t, AckEventStep(id));
  }

  lemma DeliverGood(t: Tables, s: nat)
    requires Inv(t)
    ensures Inv(After(t, MarkDelivered(t, s)))
  {
    hide Inv, MarkDelivered;
    StepSound(t, DeliverStep(s));
  }

  /** Except mapJob, which keeps it exactly when it writes no journal status. */
  lemma MapGood(t: Tables, job: Name, attempt: nat, session: Name, status: string)
    requires Inv(t)
    ensures var r := MapJob(t, job, attempt, session, status);
            Inv(After(t, r)) <==> !(r.Done? && JournalStatus(status))
  {
    hide Inv, MapJob;
    var step := MapStep(job, attempt, session, status);
    if Claims(t, step) {
      assert !Inv(Apply(t, step)) by { InvReads(t); ClaimedIsUnsound(t, step); }
    } else {
      StepSound(t, step);
    }
  }

  lemma InvReads(t: Tables)
    requires Inv(t)
    ensures Readable(t)
  {}

  lemma ClaimedIsUnsound(t: Tables, step: Step)
    requires Readable(t) && Claims(t, step)
    ensures !Inv(Apply(t, step))
  {
    hide Readable, Claims, Apply;
    JournalTheorems.ClaimCorrupts(t, step);
  }

  /** The store. Every method is one transaction: it commits what it returns, or
      returns a refusal and changes nothing. */
  class PluginStore {
    var intents: map<Key, Intent>
    var active: map<Id, Owner>
    var generations: map<Id, Owner>
    var terminals: map<Key, TerminalRecord>
    var mappings: map<(Name, nat), Mapping>
    var outbound: map<nat, OutRow>
    var profiles: set<nat>
    var proven: nat
    var inbound: map<nat, InRow>
    var delivered: map<Id, nat>
    var receipts: map<nat, Receipt>

    /** The contents of all tables. */
    function Contents(): Tables
      reads this
    {
      Tables(intents, active, generations, terminals, mappings, outbound, profiles, proven, inbound, delivered,
             receipts)
    }

    /** The journal reads without corruption, message ids are unique, receipts
        are good, and everything up to the proven prefix is acknowledged. */
    ghost predicate Valid()
      reads this
    {
      Inv(Contents())
    }

    constructor ()
      ensures Valid() && Contents() == Empty
    {
      intents, active, generations, terminals, mappings := map[], map[], map[], map[], map[];
      outbound, profiles, proven := map[], {}, 0;
      inbound, delivered, receipts := map[], map[], map[];
      new;
      JournalTheorems.EmptyInv();
    }

    method PrepareOwnedIntent(offer: ServerMessage, session: Id, initialMessageId: Id, generation: Id)
      returns (r: Result<Intent>)
      modifies this
      ensures r == Prepare(old(Contents()), offer, session, initialMessageId, generation)
              && Contents() == After(old(Contents()), r)
      ensures old(Valid()) ==> Valid()
    {
      hide Inv, Readable, Taken;
      if Valid() { PrepareGood(Contents(), offer, session, initialMessageId, generation); }
      if !OfferOk(offer) { return Refused(InvalidInput); }
      var ok, records := ReadOwnedIntents(Contents());
      if !ok { return Refused(Corrupt); }
      var v := Initial(offer, session, initialMessageId, generation);
      var k := KeyOf(v.owner);
      if k in records {
        if Original(records[k]) == v { return Done(Contents(), records[k]); }
        return Refused(Conflicting);
      }
      if offer.sequence !in inbound || inbound[offer.sequence].messageId != offer.messageId {
        return Refused(Conflicting);
      }
      if inbound[offer.sequence].body.Unreadable? { return Refused(Corrupt); }
      if inbound[offer.sequence].body.message != offer { return Refused(Conflicting); }
      if Taken(Contents(), v.owner) { return Refused(Conflicting); }
      mappings := mappings[MappingKey(v.owner) := Mapping(Canonical(session), "prepared")];
      intents := intents[k := v];
      active, generations := active[v.owner.job := v.owner], generations[generation := v.owner];
      return Done(Contents(), v);
    }

    method AdvanceOwnedIntent(owner: Owner, version: nat, x: Transition) returns (r: Result<Intent>)
      modifies this
      ensures r == Advance(old(Contents()), owner, version, x) && Contents() == After(old(Contents()), r)
      ensures old(Valid()) ==> Valid()
    {
      hide Inv, Readable;
      if Valid() { AdvanceGood(Contents(), owner, version, x); }
      if x.ToStarted? && x.evidence.eventSequence > MAX_SAFE { return Refused(InvalidInput); }
      var ok, records := ReadOwnedIntents(Contents());
      if !ok { return Refused(Corrupt); }
      if KeyOf(owner) !in records { return Refused(Conflicting); }
      var v := records[KeyOf(owner)];
      if v.phase.Closed? || v.owner != owner || v.version != version { return Refused(Conflicting); }
      if x.ToUnavailable? && v.unavailable == Some(x.reason) { return Done(Contents(), v); }
      var next := Advanced(v, x);
      if next.None? || version >= MAX_SAFE { return Refused(Conflicting); }
      var w := next.value.(version := version + 1);
      intents := intents[KeyOf(owner) := w];
      mappings := mappings[MappingKey(owner) := Mapping(Canonical(owner.session), PhaseText(w.phase))];
      return Done(Contents(), w);
    }

    /** writeTerminal. */
    method WriteTerminal(record: TerminalRecord)
      modifies this`intents, this`mappings, this`terminals
      ensures Contents() == AddTerminal(old(Contents()), record)
    {
      var v := Successor(record);
      intents := intents[KeyOf(v.owner) := v];
      mappings := mappings[MappingKey(v.owner) := Mapping(Canonical(v.owner.session), StatusText(record.status))];
      terminals := terminals[KeyOf(v.owner) := record];
    }

    method InsertOutbound(e: OutInput)
      modifies this`outbound, this`profiles
      ensures Contents() == AddOutbound(old(Contents()), e)
    {
      outbound := outbound[e.sequence := OutRow(e.messageId, e.payload, false)];
      if e.profiled { profiles := profiles + {e.sequence}; }
    }

    method CommitTerminal(p: Proposal, state: StatePayload, granted: bool, e: OutInput) returns (r: Result<Committed>)
      modifies this
      ensures r == Commit(old(Contents()), p, state, granted, e) && Contents() == After(old(Contents()), r)
      ensures old(Valid()) ==> Valid()
    {
      hide Inv, Readable, RecordOk, ProposalStatus, OperationFits, Above, IdUsed, AddTerminal, AddOutbound;
      if Valid() { CommitGood(Contents(), p, state, granted, e); }
      var status, o := ProposalStatus(p), p.binding.owner;
      if status.None? { return Refused(InvalidInput); }
      if !granted { return Refused(Revoked); }
      var ok, records := ReadOwnedIntents(Contents());
      if !ok { return Refused(Corrupt); }
      if KeyOf(o) !in records || records[KeyOf(o)].owner != o { return Refused(Conflicting); }
      var v := records[KeyOf(o)];
      var marker := MarkerOf(Contents(), v);
      var before := if marker.Some? then marker.value.predecessor else v;
      if before.version != p.binding.expectedVersion || !OperationFits(before, p.binding.operation) {
        return Refused(Conflicting);
      }
      if state.currentAttempt != o.attempt || (before.mode.Some? && before.mode != Some(state.mode)) {
        return Refused(Conflicting);
      }
      if marker.Some? {
        var answer := AgainstExisting(marker.value, p);
        if answer.None? { return Refused(Conflicting); }
        return Done(Contents(), answer.value);
      }
      if v.version >= MAX_SAFE || v.phase.Closed? { return Refused(Conflicting); }
      if !EventFits(e, p) || e.sequence < 1 || e.sequence > MAX_SAFE { return Refused(InvalidInput); }
      if !Above(Contents(), e.sequence) { return Refused(NotMonotonic); }
      if IdUsed(Contents(), e.messageId) { return Refused(NotStored); }
      var record := LocalRecord(v, p, status.value, e);
      if !RecordOk(record) { return Refused(Corrupt); }
      WriteTerminal(record);
      InsertOutbound(e);
      return Done(Contents(), Committed(record));
    }

    method ReconcileTerminal(b: Binding, state: StatePayload, granted: bool) returns (r: Result<Reconciled>)
      modifies this
      ensures r == Reconcile(old(Contents()), b, state, granted) && Contents() == After(old(Contents()), r)
      ensures old(Valid()) ==> Valid()
    {
      hide Inv, Readable, RecordOk, AddTerminal;
      if Valid() { ReconcileGood(Contents(), b, state, granted); }
      if !b.operation.ReconcileOp? { return Refused(InvalidInput); }
      if !granted { return Refused(Revoked); }
      var ok, records := ReadOwnedIntents(Contents());
      if !ok { return Refused(Corrupt); }
      if KeyOf(b.owner) !in records || records[KeyOf(b.owner)].owner != b.owner { return Refused(Conflicting); }
      var v := records[KeyOf(b.owner)];
      if v.version != b.expectedVersion || v.mode != Some(state.mode) { return Refused(Conflicting); }
      if state.currentAttempt != b.owner.attempt || !Terminal(state.status) { return Refused(Conflicting); }
      var marker := MarkerOf(Contents(), v);
      if marker.Some? {
        if marker.value.Remote? && marker.value.status != state.status { return Refused(Conflicting); }
        return Done(Contents(), AlreadyClosed(marker.value));
      }
      var record := Remote(v, v.version + 1, state.status, state);
      if !RecordOk(record) { return Refused(Corrupt); }
      WriteTerminal(record);
      return Done(Contents(), Reconciled(record));
    }

    method Enqueue(e: OutInput) returns (r: Result<()>)
      modifies this
      ensures r == EnqueueEvent(old(Contents()), e) && Contents() == After(old(Contents()), r)
      ensures old(Valid()) ==> Valid()
    {
      hide Inv, Readable, RequestOk, Above, IdUsed, AddOutbound;
      if Valid() { EnqueueGood(Contents(), e); }
      if e.sequence < 1 || e.sequence > MAX_SAFE { return Refused(InvalidInput); }
      if e.profiled && !RequestOk(OutRow(e.messageId, e.payload, false), e.sequence) { return Refused(InvalidInput); }
      if Parses(e.payload) && ForbiddenGeneric(e.payload.body) {
        var ok, records := ReadOwnedIntents(Contents());
        if !ok { return Refused(Corrupt); }
        if (e.payload.body.job, e.payload.body.attempt) in records { return Refused(Conflicting); }
      }
      if IdUsed(Contents(), e.messageId) {
        if e.sequence in outbound && outbound[e.sequence].messageId == e.messageId
           && outbound[e.sequence].payload == e.payload && (e.sequence in profiles) == e.profiled
        {
          return Done(Contents(), ());
        }
        return Refused(NotMonotonic);
      }
      if !Above(Contents(), e.sequence) { return Refused(NotMonotonic); }
      InsertOutbound(e);
      return Done(Contents(), ());
    }

    method MapLegacyJob(job: Name, attempt: nat, session: Name, status: string) returns (r: Result<()>)
      modifies this
      ensures r == MapJob(old(Contents()), job, attempt, session, status) && Contents() == After(old(Contents()), r)
      ensures old(Valid()) ==> (Valid() <==> !(r.Done? && JournalStatus(status)))
    {
      hide Inv, Readable, Touches;
      if Valid() { MapGood(Contents(), job, attempt, session, status); }
      if attempt < 1 || attempt > MAX_SAFE || status == "" { return Refused(InvalidInput); }
      var ok, records := ReadOwnedIntents(Contents());
      if !ok { return Refused(Corrupt); }
      if exists k :: k in records && Touches((job, attempt), Mapping(session, status), records[k].owner) {
        return Refused(Conflicting);
      }
      if (job, attempt) in mappings && mappings[(job, attempt)].session != session { return Refused(Conflicting); }
      if exists m :: m in mappings && mappings[m].session == session && m != (job, attempt) {
        return Refused(Conflicting);
      }
      mappings := mappings[(job, attempt) := Mapping(session, status)];
      return Done(Contents(), ());
    }

    method Replace(previous: InRow, messageId: Id, sequence: nat, body: Stored, request: Option<nat>)
      returns (r: Result<()>)
      modifies this
      ensures r == ReplaceInbound(old(Contents()), previous, messageId, sequence, body, request)
              && Contents() == After(old(Contents()), r)
      ensures old(Valid()) ==> Valid()
    {
      hide Inv, PrepareReceipt, MessageKnown;
      if Valid() { ReplaceGood(Contents(), previous, messageId, sequence, body, request); }
      if sequence < 1 || sequence > MAX_SAFE { return Refused(InvalidInput); }
      if sequence !in inbound || inbound[sequence] != previous || MessageKnown(Contents(), messageId) {
        return Refused(Conflicting);
      }
      var p := PrepareReceipt(Contents(), messageId, sequence, body, request, true);
      if p.Invalid? { return Refused(NotStored); }
      // Completion belongs to the proven state sequence: read it before the row changes.
      var proof := Proving(Contents(), sequence, p);
      var keep := proof.Some? && proof.value.response.StateResponse? && Delivered(Contents(), sequence);
      inbound := inbound[sequence := InRow(messageId, body)];
      delivered := delivered - {previous.messageId, messageId};
      receipts := WithReceipt(Contents(), p).receipts;
      if keep { delivered := delivered[messageId := sequence]; }
      return Done(Contents(), ());
    }

    method RenewDelivery(sequence: nat, time: int, text: Id, accepted: bool) returns (r: Result<()>)
      modifies this
      ensures r == Renew(old(Contents()), sequence, time, text, accepted) && Contents() == After(old(Contents()), r)
      ensures old(Valid()) ==> Valid()
    {
      hide Inv;
      if Valid() { RenewGood(Contents(), sequence, time, text, accepted); }
      if sequence !in outbound { return Refused(Absent); }
      var row := outbound[sequence];
      if row.payload.sentAt.Some? && time <= row.payload.sentAt.value { return Refused(InvalidInput); }
      row := row.(payload := row.payload.(expiry := if accepted then At(time) else BadExpiry(text)));
      if sequence in profiles && !RequestOk(row, sequence) { return Refused(InvalidInput); }
      outbound := outbound[sequence := row];
      return Done(Contents(), ());
    }

    method Record(messageId: Id, sequence: nat, body: Stored, request: Option<nat>) returns (r: Result<Novelty>)
      modifies this
      ensures r == RecordInbound(old(Contents()), messageId, sequence, body, request)
              && Contents() == After(old(Contents()), r)
      ensures old(Valid()) ==> Valid()
    {
      hide Inv, PrepareReceipt, MessageKnown;
      if Valid() { RecordGood(Contents(), messageId, sequence, body, request); }
      if sequence < 1 || sequence > MAX_SAFE { return Refused(InvalidInput); }
      var p := PrepareReceipt(Contents(), messageId, sequence, body, request, false);
      if p.Invalid? { return Refused(NotStored); }
      if MessageKnown(Contents(), messageId) {
        if sequence in inbound && inbound[sequence] == InRow(messageId, body) { return Done(Contents(), Duplicate); }
        return Refused(Conflicting);
      }
      if sequence in inbound { return Refused(Conflicting); }
      inbound := inbound[sequence := InRow(messageId, body)];
      receipts := WithReceipt(Contents(), p).receipts;
      return Done(Contents(), New);
    }

    method AcknowledgeOutbound(sequence: nat, correlation: Correlation) returns (r: Result<()>)
      modifies this
      ensures r == AcknowledgeThrough(old(Contents()), sequence, correlation) && Contents() == After(old(Contents()), r)
      ensures old(Valid()) ==> Valid()
    {
      hide Inv, Above;
      if Valid() { AckThroughGood(Contents(), sequence, correlation); }
      if sequence !in outbound { return Refused(Absent); }
      if outbound[sequence].payload.sequence != sequence || outbound[sequence].payload.correlation != correlation {
        return Refused(InvalidInput);
      }
      if proven > 0 && Above(Contents(), proven) { return Refused(InvalidInput); }
      if sequence >= proven { proven := sequence; }
      outbound := Acknowledged(outbound, proven);
      return Done(Contents(), ());
    }

    method AcknowledgeOne(messageId: Id)
      modifies this
      ensures Contents() == After(old(Contents()), AcknowledgeEvent(old(Contents()), messageId))
      ensures old(Valid()) ==> Valid()
    {
      hide Inv;
      if Valid() { AckEventGood(Contents(), messageId); }
      outbound := map s | s in outbound ::
        if outbound[s].messageId == messageId then outbound[s].(acknowledged := true) else outbound[s];
    }

    method MarkInboundDelivered(sequence: nat) returns (r: Result<()>)
      modifies this
      ensures r == MarkDelivered(old(Contents()), sequence) && Contents() == After(old(Contents()), r)
      ensures old(Valid()) ==> Valid()
    {
      hide Inv;
      if Valid() { DeliverGood(Contents(), sequence); }
      if sequence !in inbound { return Refused(Absent); }
      delivered := delivered[inbound[sequence].messageId := sequence];
      return Done(Contents(), ());
    }

    /** One transaction of a run, by the method that carries it out. */
    method Perform(step: Step)
      modifies this
      ensures Contents() == Apply(old(Contents()), step)
    {
      hide Inv, Prepare, Advance, Commit, Reconcile, EnqueueEvent, Renew, AcknowledgeThrough, AcknowledgeEvent;
      hide MapJob, RecordInbound, ReplaceInbound, MarkDelivered;
      match step
      case PrepareStep(offer, session, id, generation) => var _ := PrepareOwnedIntent(offer, session, id, generation);
      case AdvanceStep(owner, version, x) => var _ := AdvanceOwnedIntent(owner, version, x);
      case CommitStep(p, state, granted, e) => var _ := CommitTerminal(p, state, granted, e);
      case ReconcileStep(b, state, granted) => var _ := ReconcileTerminal(b, state, granted);
      case EnqueueStep(e) => var _ := Enqueue(e);
      case RenewStep(s, time, text, accepted) => var _ := RenewDelivery(s, time, text, accepted);
      case AckThroughStep(s, c) => var _ := AcknowledgeOutbound(s, c);
      case AckEventStep(id) => AcknowledgeOne(id);
      case MapStep(job, attempt, session, status) => var _ := MapLegacyJob(job, attempt, session, status);
      case RecordStep(id, s, body, request) => var _ := Record(id, s, body, request);
      case ReplaceStep(previous, id, s, body, request) => var _ := Replace(previous, id, s, body, request);
      case DeliverStep(s) => var _ := MarkInboundDelivered(s);
    }
  }

  /** A store that carries out a run holds what the run computes, so every theorem
      about runs is one about the object; and it is valid after every tame run. */
  method Execute(steps: seq<Step>) returns (store: PluginStore)
    ensures fresh(store) && store.Contents() == Run(Empty, steps)
    ensures Tame(Empty, steps) ==> store.Valid()
  {
    hide Inv, Apply, Claims;
    store := new PluginStore();
    for i := 0 to |steps|
      invariant fresh(store) && store.Contents() == Run(Empty, steps[..i])
    {
      store.Perform(steps[i]);
      assert steps[..i + 1][..i] == steps[..i];
    }
    assert steps[..|steps|] == steps;
    if Tame(Empty, steps) {
      JournalTheorems.EmptyInv();
      JournalTheorems.RunsStaySound(Empty, steps);
    }
  }
}
