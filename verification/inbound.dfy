/** The inbound journal and its coordination receipts
    (packages/harness-plugin/src/store/plugin-store.ts, lines 1045 to 1428). */
module Inbound {
  import opened Common
  import opened JournalTypes
  import opened Journal

  // ----- receipts -----

  function RequestTypeOf(b: Body): Option<RequestType> {
    match b
    case JobSync(_, _, _) => Some(SyncRequest)
    case JobClaim(_, _, _) => Some(ClaimRequest)
    case JobEvent(_, _, _, _, _) => Some(EventRequest)
    case ApprovalRequested(_, _, _) => Some(ApprovalRequest)
    case JobCancelled(_, _, _) => Some(CancelledRequest)
    case OtherBody(_) => None
  }

  predicate ConflictText(text: string) {
    text == "The job authority has changed." || text == "The job business limit has been reached."
  }

  /** The response is one a coordinating server gives to this request. */
  predicate Answers(request: Payload, response: ServerMessage) {
    && request.correlation == response.correlation
    && match response.body
       case StateResponse(job, attempt, id, sequence, nonce, _) =>
         && request.body.JobSync? && job == request.body.job && attempt == request.body.attempt
         && id == request.messageId && sequence == request.sequence && nonce == request.body.nonce
       case ErrorResponse(code, text) =>
         if request.body.JobSync? then code == "JOB_AUTHORITY_UNAVAILABLE"
           && text == "The job authority is unavailable."
         else if request.body.JobClaim? then code == "CLAIM_REJECTED" && ConflictText(text)
         else !request.body.OtherBody? && code == "EVENT_REJECTED" && ConflictText(text)
       case OfferResponse(_) => false
       case OtherResponse(_) => false
  }

  /** createCoordinationReceipt: None where the source throws. */
  function CreateReceipt(rows: map<nat, OutRow>, profiles: set<nat>, requestSequence: nat,
                         response: ServerMessage): Option<Receipt> {
    if requestSequence !in rows || requestSequence !in profiles
      || !RequestOk(rows[requestSequence], requestSequence) then None
    else
      var request := rows[requestSequence].payload;
      if !Answers(request, response) || RequestTypeOf(request.body).None? then None
      else Some(Receipt(request.sequence, request.messageId, request.correlation, RequestTypeOf(request.body).value,
                        response.sequence, response.correlation, response.body))
  }

  /** isExpiryPlaceholder. */
  predicate Placeholder(r: Response) {
    r == ErrorResponse("MESSAGE_EXPIRED", "A Connector message expired before delivery.")
  }

  /** parseResponse. */
  function ParseResponse(messageId: Id, sequence: nat, body: Stored): Option<ServerMessage> {
    if body.Read? && body.message.messageId == messageId && body.message.sequence == sequence then Some(body.message)
    else None
  }

  datatype ReceiptRead = NoReceipt | BadReceipt | Good(receipt: Receipt)

  /** The stored receipt still follows from the rows it was made from. */
  predicate ReceiptHolds(t: Tables, sequence: nat, receipt: Receipt) {
    && sequence in t.inbound && receipt.responseSequence == sequence
    && var current := ParseResponse(t.inbound[sequence].messageId, sequence, t.inbound[sequence].body);
       && current.Some?
       && CreateReceipt(t.outbound, t.profiles, receipt.requestSequence, current.value.(body := receipt.response))
          == Some(receipt)
       && (Placeholder(current.value.body) || current.value.body == receipt.response)
  }

  /** coordinationReceipt. */
  function ReadReceipt(t: Tables, sequence: nat): ReceiptRead {
    if sequence !in t.receipts then NoReceipt
    else if ReceiptHolds(t, sequence, t.receipts[sequence]) then Good(t.receipts[sequence])
    else BadReceipt
  }

  datatype Preparation = Nothing | Insert(receipt: Receipt) | Invalid

  /** prepareCoordinationReceipt. */
  function PrepareReceipt(t: Tables, messageId: Id, sequence: nat, body: Stored, request: Option<nat>,
                          replacing: bool): Preparation {
    var original := ReadReceipt(t, sequence);
    if original.BadReceipt? then Invalid
    else if original.NoReceipt? && request.None? then Nothing
    else
      var response := ParseResponse(messageId, sequence, body);
      if response.None? then Invalid
      else if request.None? then
        if Placeholder(response.value.body) && response.value.correlation == original.receipt.responseCorrelation
        then Nothing else Invalid
      else
        var candidate := CreateReceipt(t.outbound, t.profiles, request.value, response.value);
        if candidate.None? then Invalid
        else if original.Good? then (if candidate.value == original.receipt then Nothing else Invalid)
        else if sequence in t.inbound then
          var previous := ParseResponse(t.inbound[sequence].messageId, sequence, t.inbound[sequence].body);
          if replacing && previous.Some? && Placeholder(previous.value.body)
            && previous.value.correlation == response.value.correlation
          then Insert(candidate.value) else Invalid
        else Insert(candidate.value)
  }

  function WithReceipt(t: Tables, p: Preparation): Tables {
    if p.Insert? then t.(receipts := t.receipts[p.receipt.responseSequence := p.receipt]) else t
  }

  // ----- transactions -----

  predicate MessageKnown(t: Tables, id: Id) { exists s :: s in t.inbound && t.inbound[s].messageId == id }

  datatype Novelty = New | Duplicate

  /** recordInbound. */
  function RecordInbound(t: Tables, messageId: Id, sequence: nat, body: Stored, request: Option<nat>): Result<Novelty> {
    if sequence < 1 || sequence > MAX_SAFE then Refused(InvalidInput)
    else
      var p := PrepareReceipt(t, messageId, sequence, body, request, false);
      if p.Invalid? then Refused(NotStored)
      else if MessageKnown(t, messageId) then
        if sequence in t.inbound && t.inbound[sequence] == InRow(messageId, body) then Done(t, Duplicate)
        else Refused(Conflicting)
      else if sequence in t.inbound then Refused(Conflicting)
      else Done(WithReceipt(t.(inbound := t.inbound[sequence := InRow(messageId, body)]), p), New)
  }

  predicate Delivered(t: Tables, sequence: nat) {
    && sequence in t.inbound && t.inbound[sequence].messageId in t.delivered
    && t.delivered[t.inbound[sequence].messageId] == sequence
  }

  /** The receipt that decides whether completion belongs to the sequence. */
  function Proving(t: Tables, sequence: nat, p: Preparation): Option<Receipt> {
    if p.Insert? then Some(p.receipt)
    else if ReadReceipt(t, sequence).Good? then Some(ReadReceipt(t, sequence).receipt) else None
  }

  /** replaceInbound. */
  function ReplaceInbound(t: Tables, previous: InRow, messageId: Id, sequence: nat, body: Stored,
                          request: Option<nat>): Result<()> {
    if sequence < 1 || sequence > MAX_SAFE then Refused(InvalidInput)
    else if sequence !in t.inbound || t.inbound[sequence] != previous || MessageKnown(t, messageId) then
      Refused(Conflicting)
    else
      var p := PrepareReceipt(t, messageId, sequence, body, request, true);
      if p.Invalid? then Refused(NotStored)
      else
        var proof := Proving(t, sequence, p);
        var keep := proof.Some? && proof.value.response.StateResponse? && Delivered(t, sequence);
        var cleared := t.delivered - {previous.messageId, messageId};
        Done(WithReceipt(t.(inbound := t.inbound[sequence := InRow(messageId, body)],
                            delivered := if keep then cleared[messageId := sequence] else cleared), p), ())
  }

  /** markInboundDelivered, on the row that carries the message. */
  function MarkDelivered(t: Tables, sequence: nat): Result<()> {
    if sequence !in t.inbound then Refused(Absent)
    else Done(t.(delivered := t.delivered[t.inbound[sequence].messageId := sequence]), ())
  }

  // ----- the frontier -----

  predicate Contiguous(stored: set<nat>, n: nat) { forall s :: 1 <= s <= n ==> s in stored }

  /** The highest sequence with nothing missing below it. */
  predicate IsFrontier(stored: set<nat>, n: nat) { Contiguous(stored, n) && n + 1 !in stored }

  function Elements(rows: seq<nat>): set<nat> { set s | s in rows }

  /** contiguousInboundSequence: over the stored sequences in ascending order. */
  method ContiguousInbound(rows: seq<nat>) returns (frontier: nat)
    requires forall i :: 0 <= i < |rows| ==> rows[i] >= 1
    requires forall i, j :: 0 <= i < j < |rows| ==> rows[i] < rows[j]
    ensures IsFrontier(Elements(rows), frontier)
  {
    frontier := 0;
    for i := 0 to |rows|
      invariant frontier == i
      invariant forall j :: 0 <= j < i ==> rows[j] == j + 1
    {
      if rows[i] != frontier + 1 {
        assert rows[i] > i + 1 by { if i > 0 { assert rows[i - 1] == i; } }
        assert forall j :: 0 <= j < |rows| ==> rows[j] != i + 1;
        FrontierOf(rows, i);
        return;
      }
      frontier := rows[i];
    }
    FrontierOf(rows, frontier);
  }

  lemma FrontierOf(rows: seq<nat>, n: nat)
    requires n <= |rows| && (forall j :: 0 <= j < n ==> rows[j] == j + 1)
             && (forall j :: 0 <= j < |rows| ==> rows[j] != n + 1)
    ensures IsFrontier(Elements(rows), n)
  {
    forall s | 1 <= s <= n ensures s in Elements(rows) { assert rows[s - 1] == s; }
  }

  /** There is one frontier, and storing more never lowers it. */
  lemma FrontierGrows(stored: set<nat>, more: set<nat>, n: nat, n': nat)
    requires stored <= more && IsFrontier(stored, n) && IsFrontier(more, n')
    ensures n <= n'
  {
    assert n' < n ==> n' + 1 in stored;
  }

  // ----- what every transaction keeps -----

  predicate IdsUnique(t: Tables) {
    forall s, s' :: s in t.inbound && s' in t.inbound && t.inbound[s].messageId == t.inbound[s'].messageId ==> s == s'
  }

  /** Every stored receipt reads back. */
  predicate ReceiptsGood(t: Tables) { forall s :: s in t.receipts ==> ReceiptHolds(t, s, t.receipts[s]) }

  /** A receipt once stored is never changed. */
  predicate ReceiptsKept(t: Tables, t': Tables) {
    forall s :: s in t.receipts ==> s in t'.receipts && t'.receipts[s] == t.receipts[s]
  }

  /** A proven job.state sequence, once delivered, stays delivered. */
  predicate CompletionsKept(t: Tables, t': Tables) {
    forall s :: s in t.receipts && t.receipts[s].response.StateResponse? && Delivered(t, s) ==> Delivered(t', s)
  }

  lemma NewReceiptHolds(t: Tables, t': Tables, messageId: Id, sequence: nat, body: Stored, request: Option<nat>,
                        replacing: bool)
    requires t'.outbound == t.outbound && t'.profiles == t.profiles
    requires sequence in t'.inbound && t'.inbound[sequence] == InRow(messageId, body)
    requires PrepareReceipt(t, messageId, sequence, body, request, replacing).Insert?
    ensures var r := PrepareReceipt(t, messageId, sequence, body, request, replacing).receipt;
            sequence !in t.receipts && r.responseSequence == sequence && ReceiptHolds(t', sequence, r)
  {}

  lemma OldReceiptHolds(t: Tables, t': Tables, messageId: Id, sequence: nat, body: Stored, request: Option<nat>)
    requires t'.outbound == t.outbound && t'.profiles == t.profiles && sequence in t.receipts
             && ReceiptHolds(t, sequence, t.receipts[sequence])
    requires sequence in t'.inbound && t'.inbound[sequence] == InRow(messageId, body)
    requires PrepareReceipt(t, messageId, sequence, body, request, true).Nothing?
    ensures ReceiptHolds(t', sequence, t.receipts[sequence])
  {
    hide ConflictText;
  }

  lemma OtherReceiptHolds(t: Tables, t': Tables, s: nat, r: Receipt)
    requires ReceiptHolds(t, s, r) && t'.outbound == t.outbound && t'.profiles == t.profiles && s in t'.inbound
             && t'.inbound[s] == t.inbound[s]
    ensures ReceiptHolds(t', s, r)
  {
    hide CreateReceipt, Placeholder;
  }

  /** Same rows for every receipt, and the same requests. */
  lemma ReceiptsFollowRows(t: Tables, t': Tables, sequence: nat)
    requires ReceiptsGood(t) && t'.outbound == t.outbound && t'.profiles == t.profiles
    requires forall s :: s in t.receipts && s in t.inbound && s != sequence ==>
             s in t'.inbound && t'.inbound[s] == t.inbound[s]
    ensures forall s :: s in t.receipts ==> s in t.inbound && (s != sequence ==> ReceiptHolds(t', s, t.receipts[s]))
  {
    hide ReceiptHolds;
    forall s | s in t.receipts ensures s in t.inbound && (s != sequence ==> ReceiptHolds(t', s, t.receipts[s])) {
      assert ReceiptHolds(t, s, t.receipts[s]);
      ReceiptHasRow(t, s, t.receipts[s]);
      if s != sequence { OtherReceiptHolds(t, t', s, t.receipts[s]); }
    }
  }

  lemma RecordKeeps(t: Tables, messageId: Id, sequence: nat, body: Stored, request: Option<nat>)
    requires IdsUnique(t) && ReceiptsGood(t)
    ensures var t' := After(t, RecordInbound(t, messageId, sequence, body, request));
            IdsUnique(t') && ReceiptsGood(t') && ReceiptsKept(t, t') && CompletionsKept(t, t')
              && t.inbound.Keys <= t'.inbound.Keys
  {
    hide PrepareReceipt, ReceiptHolds, IdsUnique, ReceiptsGood, ReceiptsKept, CompletionsKept, MessageKnown, Delivered;
    var r := RecordInbound(t, messageId, sequence, body, request);
    NothingChanged(t);
    if r.Done? && r.value.New? {
      RecordIds(t, messageId, sequence, body, request);
      RecordReceipts(t, messageId, sequence, body, request);
    }
  }

  lemma NothingChanged(t: Tables)
    ensures ReceiptsKept(t, t) && CompletionsKept(t, t)
  {}

  lemma RecordIds(t: Tables, messageId: Id, sequence: nat, body: Stored, request: Option<nat>)
    requires IdsUnique(t) && RecordInbound(t, messageId, sequence, body, request).Done?
    ensures var t' := RecordInbound(t, messageId, sequence, body, request).tables;
            IdsUnique(t') && t.inbound.Keys <= t'.inbound.Keys
  {
    hide PrepareReceipt;
  }

  lemma RecordReceipts(t: Tables, messageId: Id, sequence: nat, body: Stored, request: Option<nat>)
    requires ReceiptsGood(t) && RecordInbound(t, messageId, sequence, body, request).Done?
             && RecordInbound(t, messageId, sequence, body, request).value.New?
    ensures var t' := RecordInbound(t, messageId, sequence, body, request).tables;
            ReceiptsGood(t') && ReceiptsKept(t, t') && CompletionsKept(t, t')
  {
    hide PrepareReceipt, ReceiptHolds, MessageKnown;
    var t' := RecordInbound(t, messageId, sequence, body, request).tables;
    var p := PrepareReceipt(t, messageId, sequence, body, request, false);
    if p.Insert? { NewReceiptHolds(t, t', messageId, sequence, body, request, false); }
    ReceiptsFollowRows(t, t', sequence);
    hide RecordInbound;
  }

  lemma ReceiptHasRow(t: Tables, s: nat, r: Receipt)
    requires ReceiptHolds(t, s, r)
    ensures s in t.inbound
  {}

  lemma ReplaceKeeps(t: Tables, previous: InRow, messageId: Id, sequence: nat, body: Stored, request: Option<nat>)
    requires IdsUnique(t) && ReceiptsGood(t)
    ensures var t' := After(t, ReplaceInbound(t, previous, messageId, sequence, body, request));
            IdsUnique(t') && ReceiptsGood(t') && ReceiptsKept(t, t') && CompletionsKept(t, t')
              && t.inbound.Keys <= t'.inbound.Keys
  {
    hide ReplaceInbound, IdsUnique, ReceiptsGood, ReceiptsKept, CompletionsKept;
    NothingChanged(t);
    if ReplaceInbound(t, previous, messageId, sequence, body, request).Done? {
      ReplaceIds(t, previous, messageId, sequence, body, request);
      ReplaceReceipts(t, previous, messageId, sequence, body, request);
      ReplaceCompletes(t, previous, messageId, sequence, body, request);
    }
  }

  lemma ReplaceIds(t: Tables, previous: InRow, messageId: Id, sequence: nat, body: Stored, request: Option<nat>)
    requires IdsUnique(t) && ReplaceInbound(t, previous, messageId, sequence, body, request).Done?
    ensures var t' := ReplaceInbound(t, previous, messageId, sequence, body, request).tables;
            IdsUnique(t') && t.inbound.Keys <= t'.inbound.Keys
  {
    hide PrepareReceipt, Proving;
  }

  lemma ReplaceReceipts(t: Tables, previous: InRow, messageId: Id, sequence: nat, body: Stored, request: Option<nat>)
    requires ReceiptsGood(t) && ReplaceInbound(t, previous, messageId, sequence, body, request).Done?
    ensures var t' := ReplaceInbound(t, previous, messageId, sequence, body, request).tables;
            ReceiptsGood(t') && ReceiptsKept(t, t')
  {
    hide PrepareReceipt, ReceiptHolds, Proving, MessageKnown, Delivered;
    var t' := ReplaceInbound(t, previous, messageId, sequence, body, request).tables;
    var p := PrepareReceipt(t, messageId, sequence, body, request, true);
    if p.Insert? { NewReceiptHolds(t, t', messageId, sequence, body, request, true); }
    ReceiptsFollowRows(t, t', sequence);
    if sequence in t.receipts { OldReceiptHolds(t, t', messageId, sequence, body, request); }
    hide ReplaceInbound;
  }

  lemma ReplaceCompletes(t: Tables, previous: InRow, messageId: Id, sequence: nat, body: Stored, request: Option<nat>)
    requires IdsUnique(t) && ReceiptsGood(t) && ReplaceInbound(t, previous, messageId, sequence, body, request).Done?
    ensures CompletionsKept(t, After(t, ReplaceInbound(t, previous, messageId, sequence, body, request)))
  {
    hide ReceiptHolds, PrepareReceipt;
    var t' := After(t, ReplaceInbound(t, previous, messageId, sequence, body, request));
    var p := PrepareReceipt(t, messageId, sequence, body, request, true);
    if p.Insert? { NewReceiptHolds(t, t', messageId, sequence, body, request, true); }
    forall s | s in t.receipts && t.receipts[s].response.StateResponse? && Delivered(t, s) ensures Delivered(t', s) {
      assert ReceiptHolds(t, s, t.receipts[s]);
      if s == sequence {
        assert Proving(t, sequence, p) == Some(t.receipts[s]);
      } else {
        assert t.inbound[s].messageId != previous.messageId && t.inbound[s].messageId != messageId;
      }
    }
  }

  lemma DeliverKeeps(t: Tables, sequence: nat)
    requires IdsUnique(t) && ReceiptsGood(t)
    ensures var t' := After(t, MarkDelivered(t, sequence));
            IdsUnique(t') && ReceiptsGood(t') && ReceiptsKept(t, t') && CompletionsKept(t, t')
              && t.inbound.Keys <= t'.inbound.Keys
  {
    hide ReceiptHolds;
    var t' := After(t, MarkDelivered(t, sequence));
    ReceiptsFollowRows(t, t', 0);
    ReceiptsFollowRows(t, t', 1);
    assert ReceiptsGood(t') by { hide IdsUnique; }
    assert CompletionsKept(t, t') by { hide ReceiptsGood; }
  }
}
