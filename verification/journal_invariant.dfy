/** The journal's redundant indexes always agree: no transaction makes
    readOwnedIntents report corruption. */
module JournalInvariant {
  import opened Common
  import opened JobState
  import opened Deadlines
  import opened JournalTypes
  import opened Journal

  // ----- what one row needs from the tables -----

  /** The parts of the tables that the row at `k` reads are the same. */
  predicate SameFor(t: Tables, t': Tables, k: Key)
    requires k in t.intents
  {
    var o := t.intents[k].owner;
    && k in t'.intents && t'.intents[k] == t.intents[k]
    && (o.job in t.active ==> o.job in t'.active && t'.active[o.job] == t.active[o.job])
    && (o.generation in t.generations ==>
          o.generation in t'.generations && t'.generations[o.generation] == t.generations[o.generation])
    && (k in t.terminals <==> k in t'.terminals) && (k in t.terminals ==> t'.terminals[k] == t.terminals[k])
    && (MappingKey(o) in t.mappings ==>
          MappingKey(o) in t'.mappings && t'.mappings[MappingKey(o)] == t.mappings[MappingKey(o)])
    && (forall m :: m in t'.mappings && m !in t.mappings ==> !Touches(m, t'.mappings[m], o))
    && (forall m :: m in t'.mappings && m in t.mappings && t'.mappings[m] != t.mappings[m] ==>
          !Touches(m, t'.mappings[m], o))
  }

  /** Every outbound row that a marker may cite keeps what the marker compares. */
  predicate CitationsKept(t: Tables, t': Tables) {
    && t.profiles <= t'.profiles
    && forall s :: s in t.outbound && s in t.profiles && RequestOk(t.outbound[s], s) ==>
         && s in t'.outbound && RequestOk(t'.outbound[s], s) && t'.outbound[s].messageId == t.outbound[s].messageId
         && t'.outbound[s].payload.sentAt == t.outbound[s].payload.sentAt
         && t'.outbound[s].payload.correlation == t.outbound[s].payload.correlation
         && t'.outbound[s].payload.body == t.outbound[s].payload.body
  }

  lemma RowKept(t: Tables, t': Tables, k: Key)
    requires k in t.intents && RowOk(t, k) && SameFor(t, t', k) && CitationsKept(t, t')
    ensures RowOk(t', k)
  {
    hide RecordOk, IntentOk;
    var v := t.intents[k];
    assert MarkerOk(t', k, v);
    assert MappingOk(t', k, v);
  }

  lemma RowsKept(t: Tables, t': Tables, k: Key)
    requires RowsOk(t) && CitationsKept(t, t') && t'.intents.Keys <= t.intents.Keys + {k}
    requires forall j :: j in t.intents && j != k ==> SameFor(t, t', j)
    requires k in t'.intents ==> RowOk(t', k)
    ensures RowsOk(t')
  {
    hide RowOk, SameFor, CitationsKept;
    forall j | j in t'.intents ensures RowOk(t', j) {
      if j != k {
        assert RowOk(t, j);
        RowKept(t, t', j);
      }
    }
  }

  // ----- preparing -----

  lemma OwnersApart(t: Tables, o: Owner, k: Key)
    requires k in t.intents && RowOk(t, k) && !Taken(t, o)
    ensures var u := t.intents[k].owner; u.job != o.job && u.generation != o.generation && u.session != o.session
  {
    hide RecordOk, IntentOk, MarkerOk;
    var u := t.intents[k].owner;
    assert !Touches(MappingKey(u), t.mappings[MappingKey(u)], o);
  }

  lemma SameBesideNew(t: Tables, v: Intent, k: Key)
    requires k in t.intents && k != KeyOf(v.owner)
    requires var u := t.intents[k].owner;
             u.job != v.owner.job && u.generation != v.owner.generation && u.session != v.owner.session
    ensures SameFor(t, AddIntent(t, v), k)
  {
    var u := t.intents[k].owner;
    assert !Touches(MappingKey(v.owner), Mapping(Canonical(v.owner.session), PhaseText(v.phase)), u);
  }

  lemma CitationsSame(t: Tables, t': Tables)
    requires t'.outbound == t.outbound && t'.profiles == t.profiles
    ensures CitationsKept(t, t')
  {}

  lemma NewRowOk(t: Tables, v: Intent)
    requires MarkersOwned(t) && KeyOf(v.owner) !in t.intents && !Taken(t, v.owner) && IntentOk(v) && v.phase.Prepared?
    ensures RowOk(AddIntent(t, v), KeyOf(v.owner))
  {
    hide RecordOk, IntentOk;
    var t', k := AddIntent(t, v), KeyOf(v.owner);
    assert IndexOk(t', k, v);
    assert MarkerOk(t', k, v);
    assert MappingOk(t', k, v);
  }

  lemma IndexesAfterAdd(t: Tables, v: Intent)
    requires ActiveOwned(t) && GenerationsOwned(t) && MarkersOwned(t) && KeyOf(v.owner) !in t.intents
    ensures ActiveOwned(AddIntent(t, v)) && GenerationsOwned(AddIntent(t, v)) && MarkersOwned(AddIntent(t, v))
  {}

  lemma StatusesAfterAdd(t: Tables, v: Intent)
    requires StatusesOwned(t)
    ensures StatusesOwned(AddIntent(t, v))
  {}

  lemma AddIntentKeeps(t: Tables, v: Intent)
    requires Readable(t) && KeyOf(v.owner) !in t.intents && !Taken(t, v.owner) && IntentOk(v) && v.phase.Prepared?
    ensures Readable(AddIntent(t, v))
  {
    hide IntentOk, Taken, RowOk, ActiveOwned, GenerationsOwned, MarkersOwned, StatusesOwned, SameFor;
    var t' := AddIntent(t, v);
    forall k | k in t.intents ensures SameFor(t, t', k) {
      assert RowOk(t, k);
      OwnersApart(t, v.owner, k);
      SameBesideNew(t, v, k);
    }
    CitationsSame(t, t');
    NewRowOk(t, v);
    RowsKept(t, t', KeyOf(v.owner));
    IndexesAfterAdd(t, v);
    StatusesAfterAdd(t, v);
  }

  lemma InitialOk(offer: ServerMessage, session: Id, initialMessageId: Id, generation: Id)
    requires OfferOk(offer)
    ensures IntentOk(Initial(offer, session, initialMessageId, generation))
  {}

  lemma PrepareKeeps(t: Tables, offer: ServerMessage, session: Id, initialMessageId: Id, generation: Id)
    requires Readable(t)
    ensures Readable(After(t, Prepare(t, offer, session, initialMessageId, generation)))
  {
    hide Readable, IntentOk, AddIntent, Taken;
    if OfferOk(offer) {
      var v := Initial(offer, session, initialMessageId, generation);
      InitialOk(offer, session, initialMessageId, generation);
      if KeyOf(v.owner) !in t.intents && !Taken(t, v.owner) { AddIntentKeeps(t, v); }
    }
  }

  // ----- replacing the record of an existing intent -----

  /** The tables differ only in the row at `k`, whose owner stays, in its
      marker, and in the status of its mapping. */
  predicate OneRowChanged(t: Tables, t': Tables, k: Key)
    requires k in t.intents
  {
    var o := t.intents[k].owner;
    && k in t'.intents && t'.intents[k].owner == o
    && t'.intents == t.intents[k := t'.intents[k]]
    && t'.active == t.active && t'.generations == t.generations
    && (t'.terminals == t.terminals || (k in t'.terminals && t'.terminals == t.terminals[k := t'.terminals[k]]))
    && MappingKey(o) in t'.mappings && t'.mappings[MappingKey(o)].session == Canonical(o.session)
    && t'.mappings == t.mappings[MappingKey(o) := t'.mappings[MappingKey(o)]]
  }

  lemma RowsApart(t: Tables, k: Key, j: Key)
    requires k in t.intents && j in t.intents && j != k && RowOk(t, k) && RowOk(t, j)
    ensures t.intents[j].owner.job != t.intents[k].owner.job && t.intents[j].owner.session != t.intents[k].owner.session
  {
    hide RecordOk, IntentOk, MarkerOk;
    var o, u := t.intents[k].owner, t.intents[j].owner;
    assert t.active[o.job] == o && t.active[u.job] == u;
    assert t.mappings[MappingKey(o)].session == Canonical(o.session);
    assert !Touches(MappingKey(o), t.mappings[MappingKey(o)], u) by { assert MappingKey(o) != MappingKey(u); }
  }

  lemma SameBesideChanged(t: Tables, t': Tables, k: Key, j: Key)
    requires k in t.intents && OneRowChanged(t, t', k) && j in t.intents && j != k
    requires t.intents[j].owner.job != t.intents[k].owner.job
             && t.intents[j].owner.session != t.intents[k].owner.session
    ensures SameFor(t, t', j)
  {
    var o := t.intents[k].owner;
    assert !Touches(MappingKey(o), t'.mappings[MappingKey(o)], t.intents[j].owner);
  }

  lemma IndexesAfterChange(t: Tables, t': Tables, k: Key)
    requires k in t.intents && OneRowChanged(t, t', k) && (k in t'.terminals ==> t'.intents[k].phase.Closed?)
    requires ActiveOwned(t) && GenerationsOwned(t) && MarkersOwned(t)
    ensures ActiveOwned(t') && GenerationsOwned(t') && MarkersOwned(t')
  {}

  lemma StatusesAfterChange(t: Tables, t': Tables, k: Key)
    requires k in t.intents && OneRowChanged(t, t', k) && StatusesOwned(t) && k == KeyOf(t.intents[k].owner)
    ensures StatusesOwned(t')
  {
    forall m | m in t'.mappings && JournalStatus(t'.mappings[m].status)
      ensures m.0 == Canonical(m.0.base) && (m.0.base, m.1) in t'.intents
    {
      if m != MappingKey(t.intents[k].owner) { assert t.mappings[m] == t'.mappings[m]; }
    }
  }

  lemma OneRowKeeps(t: Tables, t': Tables, k: Key)
    requires Readable(t) && k in t.intents && OneRowChanged(t, t', k) && CitationsKept(t, t')
    requires RowOk(t', k) && (k in t'.terminals ==> t'.intents[k].phase.Closed?)
    ensures Readable(t')
  {
    hide RowOk, ActiveOwned, GenerationsOwned, MarkersOwned, StatusesOwned, SameFor, CitationsKept;
    assert RowOk(t, k);
    KeyOfRow(t, k);
    forall j | j in t.intents && j != k ensures SameFor(t, t', j) {
      assert RowOk(t, j);
      RowsApart(t, k, j);
      SameBesideChanged(t, t', k, j);
    }
    RowsKept(t, t', k);
    IndexesAfterChange(t, t', k);
    StatusesAfterChange(t, t', k);
  }

  lemma KeyOfRow(t: Tables, k: Key)
    requires k in t.intents && RowOk(t, k)
    ensures k == KeyOf(t.intents[k].owner) && IntentOk(t.intents[k])
  {}

  /** The only mapping that touches an owner is still its own. */
  lemma MappingAfterChange(t: Tables, t': Tables, k: Key)
    requires k in t.intents && MappingOk(t, k, t.intents[k]) && OneRowChanged(t, t', k)
    requires t'.mappings[MappingKey(t.intents[k].owner)].status == StatusOf(t', k, t'.intents[k])
    ensures MappingOk(t', k, t'.intents[k])
  {
    hide StatusOf;
  }

  lemma AdvancedOk(v: Intent, x: Transition, version: nat)
    requires IntentOk(v) && !v.phase.Closed? && v.version == version < MAX_SAFE && Advanced(v, x).Some?
    requires x.ToStarted? ==> x.evidence.eventSequence <= MAX_SAFE
    ensures var w := Advanced(v, x).value.(version := version + 1);
            IntentOk(w) && !w.phase.Closed? && w.owner == v.owner
  {}

  lemma PutIntentKeeps(t: Tables, v: Intent, w: Intent)
    requires Readable(t) && KeyOf(v.owner) in t.intents && t.intents[KeyOf(v.owner)] == v && !v.phase.Closed?
    requires w.owner == v.owner && IntentOk(w) && !w.phase.Closed?
    ensures Readable(PutIntent(t, w))
  {
    hide RecordOk, IntentOk, Readable, ActiveOwned, GenerationsOwned, MarkersOwned, StatusesOwned, CitationsKept;
    var k, t' := KeyOf(v.owner), PutIntent(t, w);
    ReadRow(t, k);
    CitationsSame(t, t');
    assert OneRowChanged(t, t', k);
    MappingAfterChange(t, t', k);
    assert IndexOk(t', k, w);
    assert MarkerOk(t', k, w);
    OneRowKeeps(t, t', k);
  }

  lemma ReadRow(t: Tables, k: Key)
    requires Readable(t) && k in t.intents
    ensures RowOk(t, k)
  {
    hide RowOk;
  }

  lemma AdvanceKeeps(t: Tables, owner: Owner, version: nat, x: Transition)
    requires Readable(t)
    ensures Readable(After(t, Advance(t, owner, version, x)))
  {
    var r := Advance(t, owner, version, x);
    if r.Done? && r.tables != t {
      var v := t.intents[KeyOf(owner)];
      assert RowOk(t, KeyOf(owner));
      AdvancedOk(v, x, version);
      hide Readable, IntentOk, PutIntent, Advanced;
      PutIntentKeeps(t, v, r.value);
    }
  }

  // ----- closing -----

  /** A marker and the record it closes, whatever else happened to the outbox. */
  lemma TerminalKeeps(t: Tables, t': Tables, r: TerminalRecord)
    requires Readable(t) && KeyOf(r.predecessor.owner) in t.intents
             && t.intents[KeyOf(r.predecessor.owner)] == r.predecessor
    requires RecordOk(r) && t' == AddTerminal(t, r).(outbound := t'.outbound, profiles := t'.profiles)
    requires CitationsKept(t, t') && (r.Local? ==> Cited(t', r))
    ensures Readable(t')
  {
    hide IntentOk, Readable, ActiveOwned, GenerationsOwned, MarkersOwned, StatusesOwned, CitationsKept, Cited;
    var k, v := KeyOf(r.predecessor.owner), Successor(r);
    ReadRow(t, k);
    SuccessorOk(r);
    hide RecordOk;
    assert OneRowChanged(t, t', k);
    MappingAfterChange(t, t', k);
    assert IndexOk(t', k, v);
    assert MarkerOk(t', k, v);
    OneRowKeeps(t, t', k);
  }

  lemma SuccessorOk(r: TerminalRecord)
    requires RecordOk(r)
    ensures IntentOk(Successor(r)) && Successor(r).owner == r.predecessor.owner && Successor(r).phase.Closed?
  {
    hide ProposalStatus, SchemaOk;
  }

  lemma OutboundGrows(t: Tables, e: OutInput)
    requires Above(t, e.sequence)
    ensures CitationsKept(t, AddOutbound(t, e))
  {}

  lemma CommittedEventCited(t: Tables, v: Intent, p: Proposal, status: JobStatus, e: OutInput)
    requires EventFits(e, p)
    ensures Cited(AddOutbound(t, e), LocalRecord(v, p, status, e))
  {}

  lemma CommitKeeps(t: Tables, p: Proposal, state: StatePayload, granted: bool, e: OutInput)
    requires Readable(t)
    ensures Readable(After(t, Commit(t, p, state, granted, e)))
  {
    hide Readable, RecordOk, ProposalStatus, OperationFits, AddTerminal, AddOutbound;
    var c := Commit(t, p, state, granted, e);
    if c.Done? && c.value.Committed? {
      var r := c.value.winner;
      var v := t.intents[KeyOf(p.binding.owner)];
      assert r == LocalRecord(v, p, ProposalStatus(p).value, e) && c.tables == AddOutbound(AddTerminal(t, r), e);
      hide Commit, Above;
      LocalKeeps(t, v, p, ProposalStatus(p).value, e);
    }
  }

  lemma LocalKeeps(t: Tables, v: Intent, p: Proposal, status: JobStatus, e: OutInput)
    requires Readable(t) && KeyOf(v.owner) in t.intents && t.intents[KeyOf(v.owner)] == v
    requires EventFits(e, p) && RecordOk(LocalRecord(v, p, status, e)) && Above(t, e.sequence)
    ensures Readable(AddOutbound(AddTerminal(t, LocalRecord(v, p, status, e)), e))
  {
    hide Readable, RecordOk, Above;
    var r := LocalRecord(v, p, status, e);
    OutboundGrows(t, e);
    CommittedEventCited(AddTerminal(t, r), v, p, status, e);
    CommitFrame(t, r, e);
    hide CitationsKept, Cited, EventFits;
    TerminalKeeps(t, AddOutbound(AddTerminal(t, r), e), r);
  }

  lemma CommitFrame(t: Tables, r: TerminalRecord, e: OutInput)
    requires CitationsKept(t, AddOutbound(t, e))
    ensures CitationsKept(t, AddOutbound(AddTerminal(t, r), e))
  {}

  lemma ReconcileKeeps(t: Tables, b: Binding, state: StatePayload, granted: bool)
    requires Readable(t)
    ensures Readable(After(t, Reconcile(t, b, state, granted)))
  {
    hide Readable, RecordOk;
    var c := Reconcile(t, b, state, granted);
    if c.Done? && c.value.Reconciled? {
      CitationsSame(t, c.tables);
      TerminalKeeps(t, c.tables, c.value.record);
    }
  }

  // ----- outbound and mappings -----

  /** Transactions that leave the journal's own tables alone. */
  lemma OutboundKeeps(t: Tables, t': Tables)
    requires Readable(t) && CitationsKept(t, t')
    requires t' == t.(outbound := t'.outbound, profiles := t'.profiles, proven := t'.proven,
                      inbound := t'.inbound, delivered := t'.delivered, receipts := t'.receipts)
    ensures Readable(t')
  {
    hide RowOk, CitationsKept;
    forall k | k in t'.intents ensures RowOk(t', k) {
      assert RowOk(t, k);
      assert SameFor(t, t', k);
      RowKept(t, t', k);
    }
  }

  lemma EnqueueKeeps(t: Tables, e: OutInput)
    requires Readable(t)
    ensures Readable(After(t, EnqueueEvent(t, e)))
  {
    hide Readable, RequestOk, ForbiddenGeneric;
    var t' := After(t, EnqueueEvent(t, e));
    if t' != t {
      OutboundGrows(t, e);
      OutboundKeeps(t, t');
    }
  }

  lemma RenewCitations(t: Tables, sequence: nat, time: int, text: Id, accepted: bool)
    ensures CitationsKept(t, After(t, Renew(t, sequence, time, text, accepted)))
  {
    var t' := After(t, Renew(t, sequence, time, text, accepted));
    if t' != t {
      assert forall s :: s in t.outbound && s != sequence ==> t'.outbound[s] == t.outbound[s];
      hide Renew;
    }
  }

  lemma RenewKeeps(t: Tables, sequence: nat, time: int, text: Id, accepted: bool)
    requires Readable(t)
    ensures Readable(After(t, Renew(t, sequence, time, text, accepted)))
  {
    hide Readable, CitationsKept, RequestOk;
    RenewCitations(t, sequence, time, text, accepted);
    OutboundKeeps(t, After(t, Renew(t, sequence, time, text, accepted)));
  }

  /** Only acknowledgement marks differ. */
  predicate OnlyMarks(t: Tables, t': Tables) {
    && t'.profiles == t.profiles && t'.outbound.Keys == t.outbound.Keys
    && forall s :: s in t.outbound ==>
       t'.outbound[s].messageId == t.outbound[s].messageId && t'.outbound[s].payload == t.outbound[s].payload
  }

  lemma MarksKeepCitations(t: Tables, t': Tables)
    requires OnlyMarks(t, t')
    ensures CitationsKept(t, t')
  {
    forall s | s in t.outbound && RequestOk(t.outbound[s], s) ensures RequestOk(t'.outbound[s], s) {}
  }

  lemma ThroughOnlyMarks(t: Tables, sequence: nat, correlation: Correlation)
    ensures OnlyMarks(t, After(t, AcknowledgeThrough(t, sequence, correlation)))
  {
    hide Above;
  }

  lemma EventOnlyMarks(t: Tables, id: Id)
    ensures OnlyMarks(t, After(t, AcknowledgeEvent(t, id)))
  {}

  lemma AcknowledgeCitations(t: Tables, sequence: nat, correlation: Correlation, id: Id)
    ensures CitationsKept(t, After(t, AcknowledgeThrough(t, sequence, correlation)))
    ensures CitationsKept(t, After(t, AcknowledgeEvent(t, id)))
  {
    ThroughOnlyMarks(t, sequence, correlation);
    EventOnlyMarks(t, id);
    hide CitationsKept, OnlyMarks, AcknowledgeThrough, AcknowledgeEvent;
    MarksKeepCitations(t, After(t, AcknowledgeThrough(t, sequence, correlation)));
    MarksKeepCitations(t, After(t, AcknowledgeEvent(t, id)));
  }

  lemma AcknowledgeKeeps(t: Tables, sequence: nat, correlation: Correlation, id: Id)
    requires Readable(t)
    ensures Readable(After(t, AcknowledgeThrough(t, sequence, correlation)))
    ensures Readable(After(t, AcknowledgeEvent(t, id)))
  {
    hide Readable, CitationsKept;
    AcknowledgeCitations(t, sequence, correlation, id);
    OutboundKeeps(t, After(t, AcknowledgeThrough(t, sequence, correlation)));
    OutboundKeeps(t, After(t, AcknowledgeEvent(t, id)));
  }

  /** A legacy mapping touches no owned record. */
  lemma LegacyMappingApart(t: Tables, t': Tables, m: (Name, nat), new_: Mapping, k: Key)
    requires k in t.intents && RowOk(t, k) && t' == t.(mappings := t.mappings[m := new_])
             && !Touches(m, new_, t.intents[k].owner)
    ensures RowOk(t', k)
  {
    hide RecordOk, IntentOk;
    assert m != MappingKey(t.intents[k].owner);
    assert SameFor(t, t', k);
    CitationsSame(t, t');
    RowKept(t, t', k);
  }

  /** mapJob does not check its status. A successful mapJob keeps the journal
      readable if and only if the status is not one of the journal's own. */
  lemma MapJobKeepsIff(t: Tables, job: Name, attempt: nat, session: Name, status: string)
    requires Readable(t) && MapJob(t, job, attempt, session, status).Done?
    ensures Readable(After(t, MapJob(t, job, attempt, session, status))) <==> !JournalStatus(status)
  {
    hide RowOk, ActiveOwned, GenerationsOwned, MarkersOwned;
    var m, new_ := (job, attempt), Mapping(session, status);
    var t' := After(t, MapJob(t, job, attempt, session, status));
    forall k | k in t.intents ensures RowOk(t', k) {
      assert RowOk(t, k) && !Touches(m, new_, t.intents[k].owner);
      LegacyMappingApart(t, t', m, new_, k);
    }
    assert ActiveOwned(t') && GenerationsOwned(t') && MarkersOwned(t') by { IndexesIgnoreMappings(t, t'); }
    if JournalStatus(status) {
      assert m in t'.mappings && t'.mappings[m] == new_;
      if StatusesOwned(t') {
        var k := (job.base, attempt);
        assert k in t.intents && RowOk(t, k);
        KeyOfRow(t, k);
      }
    } else {
      assert StatusesOwned(t');
    }
  }

  lemma IndexesIgnoreMappings(t: Tables, t': Tables)
    requires t' == t.(mappings := t'.mappings) && ActiveOwned(t) && GenerationsOwned(t) && MarkersOwned(t)
    ensures ActiveOwned(t') && GenerationsOwned(t') && MarkersOwned(t')
  {}

  /** The failing side is reachable: from the empty store one mapJob with a
      journal status leaves the journal unreadable. */
  lemma MapJobCanCorrupt()
    ensures Readable(Empty)
    ensures var r := MapJob(Empty, Name(1, 0), 1, Name(2, 0), "prepared"); r.Done? && !Readable(r.tables)
  {
    MapJobKeepsIff(Empty, Name(1, 0), 1, Name(2, 0), "prepared");
  }
}
