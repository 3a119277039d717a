/** Row-level operations of the durable outbox: enqueueing, tombstoning in
    place, refreshing a stored response, and reading a replay batch
    (apps/control-plane/src/connector/outbox.ts). */
module OutboxRows {
  import opened Common
  import opened JobState
  import opened ServerTypes

  /** Appends one server message at the next sequence of the connector. `uuid`
      supplies the random message id of the row written at a given sequence. */
  function Enqueue(c: Connector, body: ServerBody, correlation: Id, expiresAt: int, now: int,
                   uuid: nat -> Id): Connector {
    var next := c.lastServer + 1;
    c.(lastServer := next,
       server := c.server[next := ServerRow(uuid(next), body, correlation, expiresAt, now, false)])
  }

  predicate TerminalOffer(b: ServerBody, jobs: map<Id, Job>) {
    b.Offer? && b.offerJob in jobs && Terminal(jobs[b.offerJob].status)
  }

  /** Row `s` must be replaced before it may be replayed. */
  predicate Candidate(rows: map<nat, ServerRow>, jobs: map<Id, Job>, now: int, s: nat) {
    s in rows && (rows[s].expiresAt <= now || TerminalOffer(rows[s].body, jobs))
  }

  /** The first `limit` rows to replace, in sequence order, among `from..hi`. */
  function Candidates(rows: map<nat, ServerRow>, jobs: map<Id, Job>, now: int, from: nat, hi: nat,
                      limit: nat): (cs: seq<nat>)
    ensures forall i :: 0 <= i < |cs| ==> from <= cs[i] <= hi && Candidate(rows, jobs, now, cs[i])
    ensures forall i, j :: 0 <= i < j < |cs| ==> cs[i] < cs[j]
    ensures |cs| <= limit
    ensures |cs| < limit ==> forall s :: from <= s <= hi && Candidate(rows, jobs, now, s) ==> s in cs
    decreases hi + 1 - from
  {
    if hi < from || limit == 0 then []
    else if Candidate(rows, jobs, now, from) then
      [from] + Candidates(rows, jobs, now, from + 1, hi, limit - 1)
    else
      Candidates(rows, jobs, now, from + 1, hi, limit)
  }

  /** The replacement body: a withdrawn offer of a cancelled job says so, every
      other replaced row says that it expired before delivery. */
  function TombstoneBody(b: ServerBody, jobs: map<Id, Job>): ServerBody {
    if b.Offer? && b.offerJob in jobs && jobs[b.offerJob].status.Cancelled?
    then CANCELLED_TOMBSTONE else EXPIRED_TOMBSTONE
  }

  function TombstoneRow(r: ServerRow, jobs: map<Id, Job>, now: int, id: Id): ServerRow {
    r.(messageId := id, body := TombstoneBody(r.body, jobs), expiresAt := now + TOMBSTONE_RETENTION_MS)
  }

  /** The rows of `cs` replaced in place, each at its own sequence. */
  function Replaced(rows: map<nat, ServerRow>, cs: seq<nat>, jobs: map<Id, Job>, now: int,
                    uuid: nat -> Id): map<nat, ServerRow> {
    map s | s in rows :: if s in cs then TombstoneRow(rows[s], jobs, now, uuid(s)) else rows[s]
  }

  function TombstoneBatch(c: Connector, jobs: map<Id, Job>, after: nat, now: int, uuid: nat -> Id): Connector {
    c.(server := Replaced(c.server, Candidates(c.server, jobs, now, after + 1, c.lastServer, REPLAY_BATCH), jobs, now,
                          uuid))
  }

  lemma ReplaceOneMore(rows: map<nat, ServerRow>, cs: seq<nat>, i: nat, jobs: map<Id, Job>, now: int, uuid: nat -> Id)
    requires i < |cs| && cs[i] in rows && cs[i] !in cs[..i]
    ensures Replaced(rows, cs[..i], jobs, now, uuid)[cs[i]] == rows[cs[i]]
    ensures Replaced(rows, cs[..i + 1], jobs, now, uuid)
         == Replaced(rows, cs[..i], jobs, now, uuid)[cs[i] := TombstoneRow(rows[cs[i]], jobs, now, uuid(cs[i]))]
  {
    assert cs[..i + 1] == cs[..i] + [cs[i]];
  }

  /** The loop of the source: replaces the candidates one by one. */
  method TombstoneReplayBatch(c: Connector, jobs: map<Id, Job>, after: nat, now: int, uuid: nat -> Id)
    returns (r: Connector)
    ensures r == TombstoneBatch(c, jobs, after, now, uuid)
  {
    var cs := Candidates(c.server, jobs, now, after + 1, c.lastServer, REPLAY_BATCH);
    var rows := c.server;
    assert rows == Replaced(c.server, cs[..0], jobs, now, uuid);
    for i := 0 to |cs|
      invariant rows == Replaced(c.server, cs[..i], jobs, now, uuid)
    {
      ReplaceOneMore(c.server, cs, i, jobs, now, uuid);
      rows := rows[cs[i] := TombstoneRow(rows[cs[i]], jobs, now, uuid(cs[i]))];
    }
    assert cs[..|cs|] == cs;
    r := c.(server := rows);
  }

  /** The stored rows after `after`, in sequence order, at most `limit` of them. */
  function Batch(rows: map<nat, ServerRow>, after: nat, hi: nat, limit: nat): (b: seq<Delivered>)
    decreases hi + 1 - after
  {
    if hi <= after || limit == 0 then []
    else if after + 1 in rows then
      [Delivered(after + 1, rows[after + 1].body)] + Batch(rows, after + 1, hi, limit - 1)
    else
      Batch(rows, after + 1, hi, limit)
  }

  /** Marks every row at or below `upto` as delivered. */
  function AcknowledgeUpTo(c: Connector, upto: nat): Connector {
    c.(server := map s | s in c.server :: if s <= upto then c.server[s].(acknowledged := true) else c.server[s])
  }

  function AcknowledgeOne(c: Connector, sequence: nat): Connector {
    if sequence in c.server then c.(server := c.server[sequence := c.server[sequence].(acknowledged := true)]) else c
  }

  /** Replaces the offer of a cancelled job (a lease id is drawn fresh, so at
      most one row carries it). */
  function WithdrawOffer(c: Connector, job: Id, lease: Id, now: int, uuid: nat -> Id): Connector {
    c.(server := map s | s in c.server ::
         var r := c.server[s];
         if r.body.Offer? && r.body.offerJob == job && r.body.offerLease == lease
         then r.(messageId := uuid(s), body := CANCELLED_TOMBSTONE, expiresAt := now + TOMBSTONE_RETENTION_MS)
         else r)
  }

  /** A stored response is written back under the sequence it always had. */
  function Refresh(c: Connector, sequence: nat, body: ServerBody, now: int, uuid: nat -> Id): Connector
    requires sequence in c.server
  {
    c.(server := c.server[sequence := c.server[sequence].(
         messageId := uuid(sequence), body := body, expiresAt := now + MESSAGE_TTL_MS, createdAt := now)])
  }
}
