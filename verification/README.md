# A durable job protocol, verified at both ends

This project models, in Dafny, a job protocol between a control plane and a
connector that runs on a developer's machine, and proves what holds of every
run of either end and where the two meet.

- **Control plane.** Numbered client messages are admitted once, each with an
  immutable receipt; receipts are replayed, expired outbox rows are tombstoned
  in place, jobs are dispatched under leases and a per-repository cap, approvals
  and cancellations are fenced by revision. The database is a value of tables, a
  transaction a function from one database to the next (`server_types`,
  `outbox_rows`, `business`, `accept`, `dispatch`, `repository`), and
  `server_store` carries them out as methods of an object with one field per
  table. Runs are arbitrary sequences of transactions with non-decreasing time
  (`server_runs`); what each transaction writes and exactly when is in `effects`,
  `replies` and `handout`, the theorems over runs in `job_theorems`, `creations`,
  `delivery`, `identities`, `commands` and `resumption`.
- **Connector journal.** Owned intents, redundant indexes, terminal markers, the
  outbound queue, the inbound journal and its coordination receipts
  (`journal_types`, `journal`, `inbound`, `journal_store`), with the
  representation invariant (`journal_invariant`), what each transaction writes and
  exactly when (`journal_effects`), runs (`journal_runs`) and theorems over them
  (`journal_theorems`).
- **Time.** RFC 3339 timestamps as texts and as exact instants (`decimal`, `calendar`,
  `timestamps`), binary64 clocks as exact integers (`binary64`), conservative
  deadlines (`deadlines`, `conservative`, with a concrete admission in
  `admission_example`) and the revocable capability built on them
  (`authority`, `tokens`).
- **Wire.** The incremental WebSocket reader and its meaning under sections 5.2
  to 5.5 of RFC 6455 (`utf8`, `frames`, `frame_reader`, `messages`, `texts`), the
  outbound queue (`outbound`) and the ordered sender (`sender`).
- **Approvals and redaction.** The approval broker (`broker`), span merging and
  bounded rendering (`redaction`, `rendering`).
- **Both ends together** (`agreement`, `exchange`, with the whole path on one example
  in `agreement_example`).

Reading conventions: identifiers are natural numbers of which only equality
matters, and random ones are fresh; database time, clock samples, random ids and
the choice that row locking leaves are parameters; the nested savepoint is a
candidate state discarded on rejection; SHA-256 is injective; JSON appears
decoded, so canonical JSON equality is equality of records; text sanitizing is an
arbitrary function, assumed to be the identity on the protocol's own event types
only where `Agreement.KeepsEventTypes` says so.

Three promises turn out to hold only under a condition, and the code is modelled
as it is. `mapJob` does not refuse the journal's own statuses
(`JournalInvariant.MapJobKeepsIff`, `MapJobCanCorrupt`). `renewDelivery` can
complete a stored message that the publication guard let through because it did
not yet parse (`JournalTheorems.RenewalAwakens`). A retransmitted answer may
overtake rows the scan has not sent (`Sender.RetransmissionCanOvertake`). In
each case the property holds of a run if and only if no step of it does so
(`JournalTheorems.AlwaysReadable`, `JournalTheorems.AtMostOneTerminalMessage`,
`Sender.WholeWireInOrder`).

## Model

| member | source | states |
|---|---|---|
| Delivery.ExactlyOnce | apps/control-plane/src/connector/outbox.ts:1651-1757 | in every run, an exact redelivery (expiry renewed or not) of any message once accepted under durable receipts is a duplicate, returns the very response and acknowledgement first given even if the row was tombstoned meanwhile, and changes no job, approval, event, cursor or receipt |
| Delivery.ReplayNeverBreaks | apps/control-plane/src/connector/outbox.ts:363-566 | on every reachable database a message whose id is known is answered from its receipt or refused as a mismatch: the replay path never reaches its INTERNAL throws, the schema test of the stored response included |
| Delivery.SyncAnswersParse | apps/control-plane/src/connector/outbox.ts:2039-2061 | in no run does the answer to a job.sync fail the JobStatePayloadSchema it is parsed with (cancel revision at most the revision, lease fields null together, a window of exactly two seconds, 32-bit bounds), unless the request asks for an attempt its own schema refuses |
| Replay.OriginalFound | apps/control-plane/src/connector/outbox.ts:363-566 | under the receipt invariant the lookup, with its schema test, finds exactly the sequence and body the receipt stored, for the response and for its acknowledgement |
| Replay.DuplicateReplays | apps/control-plane/src/connector/outbox.ts:1669-1757 | replay commits with the stored response, keeps the receipt invariant of the whole connector and touches outbox rows only |
| Replay.AcceptNewKeeps | apps/control-plane/src/connector/outbox.ts:1759-2127 | admitting a new message keeps the invariant: dense rows, numbered receipts, each response accepted by the protocol schema, backed by its row and cited once |
| Delivery.ServerRowsAreGapFree | apps/control-plane/src/connector/outbox.ts:960-1004 | in every run the server rows of a connector are exactly the sequences 1..lastServerSequence and its receipts are numbered 1..lastClientSequence, under both enqueuers, refresh, withdrawal and tombstoning |
| Delivery.ReceiptAccounting | apps/control-plane/src/connector/outbox.ts:1905-2127 | at every point of every run a newly accepted message advances the client cursor by exactly 1 and the server cursor by 0, 1 or 2 as its disposition dictates; response and acknowledgement of a durable rejection or a state answer are consecutive; an error answer leaves jobs, approvals and events untouched |
| Delivery.ReceiptsOnlyGrow | apps/control-plane/src/connector/outbox.ts:597-627 | between any two moments of a run cursors never fall and no receipt is altered or lost |
| OutboxRows.TombstoneReplayBatch | apps/control-plane/src/connector/outbox.ts:697-744 | the loop replaces exactly the first hundred expired or withdrawn rows after the cursor, each at its own sequence |
| JobTheorems.ConcurrencyCap | apps/control-plane/src/connector/outbox.ts:2131-2295 | over every interleaving with non-decreasing time, the unexpired jobs of a repository that are claimed and open, or offered under a live lease, never exceed its maxConcurrency, now or at any later instant before the next step |
| JobTheorems.SingleClaim | apps/control-plane/src/connector/outbox.ts:1274-1381 | a job is claimed at most once across all connectors, leases and redispatches: attempt is 0 before and 1 after, from a live offer to running, and the owning connector never changes afterwards |
| JobTheorems.HistoryOnlyGrows | apps/control-plane/src/db/job-repository.ts:891-1016 | between any two moments of a run terminal jobs are frozen, revision and attempt only grow, cancelRevision once written stays, a decision never changes and event logs are append-only |
| JobTheorems.EveryWriteIsLegal | apps/control-plane/src/domain/job-state.ts:3-35 | every step leaves a job alone or raises its revision by exactly 1 along the transition relation (or keeps a non-queued status), and never touches a terminal job |
| JobTheorems.ReachableJobs | apps/control-plane/src/connector/outbox.ts:1171-1239 | every job of every run has a terminal time exactly when terminal, a cancelRevision that never exceeds its revision, and attempt 0 or 1 as its status says |
| JobTheorems.OnePendingApproval | apps/control-plane/src/db/job-repository.ts:760-828 | approvals of one job carry distinct revisions, so at most one is ever pending |
| Creations.CreatedOnce | apps/control-plane/src/db/job-repository.ts:570-684 | in every run, once a creation has succeeded, the same request at any later moment returns the very same job and changes nothing, the same key with another request conflicts, the job belongs to the owner of the key, and no other key ever names it |
| Effects.CreateExactly | apps/control-plane/src/db/job-repository.ts:570-684 | a new request makes one queued job with the requested repository and mode, owned by its key, living for a day, with an empty log and its record; a repeated one makes none |
| Effects.DispatchesWhenItMay | apps/control-plane/src/connector/outbox.ts:2131-2295 | a dispatch offers the chosen job exactly when it waits for an offer or its lease has run out, it is unexpired at all three times, its repository is enabled and has a free slot, and the counters have room; otherwise nothing changes |
| Effects.DispatchWrites | apps/control-plane/src/connector/outbox.ts:2131-2295 | the job carries the drawn lease for thirty seconds cut at its expiry; row, reply and audit event name the next attempt, that lease and the repository; nothing else changes |
| Effects.ClaimExactly | apps/control-plane/src/connector/outbox.ts:1241-1381 | a claim applies exactly for the standing offer of this connector, lease and attempt with every deadline ahead, and makes the job running at that attempt; for an offer withdrawn by a cancellation it replaces exactly the offer rows of that lease |
| Effects.ClaimLate | apps/control-plane/src/connector/outbox.ts:806-854 | a claim is turned down as late only for an offer audited to this connector, lease and attempt whose time has passed, or for the standing offer when a deadline has passed |
| Effects.ClaimConflicts | apps/control-plane/src/connector/outbox.ts:856-904 | a claim is consumed as a conflict only under coordination and for an offer once audited to this connector, attempt and lease |
| Effects.WordsName | apps/control-plane/src/connector/outbox.ts:1383-1414 | each status word of the protocol names exactly one status, and any other leaves the status |
| Effects.EventExactly | apps/control-plane/src/connector/outbox.ts:1495-1595 | a client event on a bound job is written exactly when its attempt is the job's, its word names a status the job may go to, and every deadline is ahead; the job gets that status, the next revision and a terminal time exactly for a terminal word; an ended job only logs a terminal event |
| Effects.EventTurnedDown | apps/control-plane/src/connector/outbox.ts:1495-1595 | why an event is not written: unbound jobs refuse it, passed deadlines reject it, an exhausted revision is a limit, any other mismatch a change of authority under coordination only |
| Effects.RequestExactly | apps/control-plane/src/connector/outbox.ts:1066-1169 | an approval request parks the job and stores exactly the requested attempt, revision, fingerprint and expiry, exactly when it names the next revision of a running or waiting job and is in time |
| Effects.RequestTurnedDown | apps/control-plane/src/connector/outbox.ts:1066-1169 | why an approval request is not written, by kind of rejection |
| Effects.ReportExactly | apps/control-plane/src/connector/outbox.ts:1171-1239 | a cancellation report ends a cancelling job, is only logged for an ended one, and applies to no other |
| Effects.ReportTurnedDown | apps/control-plane/src/connector/outbox.ts:1171-1239 | why a cancellation report is not written, by kind of rejection |
| Effects.AckExactly | apps/control-plane/src/connector/outbox.ts:1423-1493 | an acknowledgement marks its row and no other, and resumes a job exactly when the row approves it at the attempt and revision it waits with |
| Effects.FailureExactly | apps/control-plane/src/connector/outbox.ts:2323-2341 | a protocol failure is one row on its own connector that names it and lives for a minute |
| Effects.CancelUnclaimed | apps/control-plane/src/db/job-repository.ts:891-1016 | cancelling a queued or dispatched job ends it at once, with its event, and sends nothing |
| Effects.CancelClaimed | apps/control-plane/src/db/job-repository.ts:891-1016 | cancelling a running or waiting job moves it to cancelling and sends one command with the job, its attempt and the cancellation revision, exactly when its connector can be reached and the job is alive |
| Effects.CancelLeaves | apps/control-plane/src/db/job-repository.ts:891-1016 | an ended or cancelling job is returned as it is, a foreign one is not found, another revision conflicts |
| Effects.ClaimOfferExactly | apps/control-plane/src/db/job-repository.ts:1018-1098 | the claim outside the message protocol, exactly under the standing live lease, which it renews |
| Effects.DecisionExactly | apps/control-plane/src/db/job-repository.ts:1100-1338 | the first decision of an approval is recorded exactly when fenced by revision, attempt and fingerprint and in time, as the caller's own decision; or, if the approval ran out on the way while its job lives, as a rejection reported expired |
| Effects.DecisionNotifies | apps/control-plane/src/db/job-repository.ts:1217-1338 | with an owner the recorded decision is logged and sent in one command with the approval's attempt, revision and fingerprint; without one it is only recorded |
| Effects.DecidedStays | apps/control-plane/src/db/job-repository.ts:1100-1338 | a decided approval is never decided again: the owner's same decision is confirmed without effect, anything else refused |
| Effects.PendingIsDecidable | apps/control-plane/src/db/job-repository.ts:760-828 | what is listed as pending is exactly what its owner could decide at that moment |
| Replies.OnlyPresentable | apps/control-plane/src/connector/outbox.ts:1759-1812 | a new message is taken up only in time, next in order, and true to what both sides know; one that skips ahead is a gap |
| Replies.IdsStayApart | apps/control-plane/src/connector/outbox.ts:1651-1757 | a message of another owner's connector or with the id of a sent row is never taken up, and one with a known id is only replayed |
| Replies.DisposedBy | apps/control-plane/src/connector/outbox.ts:1905-1962 | effects are kept, missed deadlines consumed under durable receipts, conflicts under durable receipts with coordination, and everything else thrown as its own error |
| Replies.TakenUp | apps/control-plane/src/connector/outbox.ts:1759-2127 | a presentable message is taken up exactly when its verdict is not thrown and there is room, and its book is the verdict's or untouched |
| Replies.AnswersByDisposition | apps/control-plane/src/connector/outbox.ts:2003-2127 | which answer each message gets at which sequence: a welcome with the capabilities granted, the rejection consumed and its acknowledgement, the withdrawn offer, or the acknowledgement |
| Replies.SyncTellsTheJob | apps/control-plane/src/connector/outbox.ts:2031-2083 | a job.sync is answered with the job exactly as the tables hold it, field by field, as of the time read for it, and an acknowledgement; an unbound job with authority unavailable |
| Replies.AnswersAreStored | apps/control-plane/src/connector/outbox.ts:960-1004 | every answer row carries the request's correlation and lives for a minute, and the receipt holds the very message and its profile |
| Replies.OriginalExactly | apps/control-plane/src/connector/outbox.ts:363-566 | a stored answer is found exactly if it is one the request can have received, was stored under the profile and correlation of the request, and its row still holds it or the expiry notice that replaced it |
| Handout.PendingHandsOut | apps/control-plane/src/connector/outbox.ts:2297-2321 | at every moment of every run the reply is the next rows after the cursor, at most a hundred, in order, each with its body after stale ones were replaced; none of them is expired or offers an ended job |
| Handout.HelloHandsOut | apps/control-plane/src/connector/outbox.ts:1963-2002 | a new hello marks as delivered exactly the rows it reports and is handed the next ones in the same sense |
| Handout.StaleRowsBuried | apps/control-plane/src/connector/outbox.ts:651-744 | of the hundred rows after the cursor exactly the stale ones are replaced, in place, for thirty days, by the cancelled or expired notice |
| Handout.ReplayRestores | apps/control-plane/src/connector/outbox.ts:568-595 | redelivering a known message writes back the rows of its answer for another minute where they expired or were replaced, and touches no other row |
| Identities.EveryWriteDrawsAnId | apps/control-plane/src/connector/outbox.ts:568-1004 | whatever any transaction does to an outbox row beyond marking it delivered, the row gets the id drawn for it; only an accepted message adds a receipt, under an id no row had |
| Identities.IdsStayUnique | apps/control-plane/src/db/schema.ts:320-350 | with fresh draws the uniqueness constraint on message ids, over both directions, is never violated in any run |
| Handout.ScanSendsStoredRows | apps/control-plane/src/connector/gateway.ts:771-835 | a live connection that sends what it is handed after its cursor puts exactly the next stored rows on the wire, once each, and its scan ends on the last |
| Handout.FailureIsSentLast | apps/control-plane/src/connector/gateway.ts:907-955 | a failing connection stores its protocol error as the next row and sends it exactly if everything before it has been sent; nothing goes out after it |
| Exchange.OfferIsClaimable | apps/control-plane/src/connector/outbox.ts:1274-1381 | a claim built from an offer and arriving in sequence while the job stands as dispatched and the lease is live commits, with the job running |
| Exchange.SnapshotStaysTrue | apps/control-plane/src/connector/outbox.ts:2039-2061 | what the connector reads from a job.sync answer describes the job as long as it is not written again |
| Exchange.EndToEndFromSync | packages/harness-plugin/src/runtime/terminal-authority.ts:382-490 | the end-to-end agreement with the state read from the control plane's own answer to a job.sync |
| Commands.CommandOrigin | apps/control-plane/src/db/job-repository.ts:389-470 | a new command row comes only from cancelling a job not cancelled before or deciding an approval not decided before, and carries exactly that job or approval |
| Commands.OneCommandAStep | apps/control-plane/src/db/job-repository.ts:389-470 | no transaction of either enqueuer adds two command rows, on one connector or on two |
| Commands.CancelCommandOnce | apps/control-plane/src/db/job-repository.ts:891-1016 | in every run at most one job.cancel row is ever enqueued for a job: any two new rows that carry one are the same row of the same connector, added by one step |
| Commands.DecisionCommandOnce | apps/control-plane/src/db/job-repository.ts:1100-1338 | in every run at most one approval.decision row is ever enqueued for an approval: any two new rows that carry one are the same row of the same connector, added by one step |
| Resumption.ResumptionsMatchDecisions | apps/control-plane/src/connector/outbox.ts:1423-1493 | each job.resumed event of any run matches a distinct approved decision of that job, in order of revision |
| Resumption.NothingBetweenRequestAndResume | apps/control-plane/src/connector/outbox.ts:1066-1169 | the job a delivered approval resumes is the very record its request left: no other write came between |
| ServerRuns.StepMoves | apps/control-plane/src/connector/outbox.ts:1495-1595 | every transaction, of whichever kind, is one of the permitted moves of jobs, approvals and events |
| ServerStore.ConnectorStore.AcceptClientMessage | apps/control-plane/src/connector/outbox.ts:1624-2127 | the transaction as statements on the store object: commits exactly the specified database and reply, or changes nothing, and keeps the invariant of every connector |
| ServerStore.ConnectorStore.ReplayReceipt | apps/control-plane/src/connector/outbox.ts:1661-1757 | a known message as statements: its receipt found, its rows refreshed, the stored response and acknowledgement handed out again; a failure after the first refresh rolls it back |
| ServerStore.ConnectorStore.AdmitNew | apps/control-plane/src/connector/outbox.ts:1759-2127 | a new message: checks in order, the effect on a candidate book discarded on rejection, then cursor, rows and receipt |
| ServerStore.ConnectorStore.EnqueueServerMessage | apps/control-plane/src/connector/outbox.ts:960-1004 | one row at the next sequence, and nothing else |
| ServerStore.ConnectorStore.Dispatch | apps/control-plane/src/connector/outbox.ts:2131-2295 | one dispatch: lease, revision, audit event and offer row together, or nothing; the invariant of every connector is kept |
| ServerStore.ConnectorStore.PendingServerMessages | apps/control-plane/src/connector/outbox.ts:2297-2321 | tombstones in place, then the next batch |
| ServerStore.ConnectorStore.Cancel | apps/control-plane/src/db/job-repository.ts:891-1016 | cancellation: job, audit event and command together, or nothing |
| ServerStore.ConnectorStore.Create | apps/control-plane/src/db/job-repository.ts:570-684 | the creation transaction as statements: the stored job of a known request, a conflict on a different digest, or one queued job with an empty event log and its record together |
| ServerStore.ConnectorStore.Claim | apps/control-plane/src/db/job-repository.ts:1018-1098 | a claim outside the message protocol: job and event together under a live matching lease, or nothing |
| ServerStore.ConnectorStore.Decide | apps/control-plane/src/db/job-repository.ts:1100-1338 | a decision once, by revision, attempt and fingerprint: with an owner the decision, its event and its command together, without one the decision alone, otherwise nothing |
| ServerStore.Execute | apps/control-plane/src/connector/outbox.ts:1624-2360 | a store object that carries out any sequence of transactions holds exactly what the run computes, so every theorem about runs is one about the object; from an initial database it is valid at the end |
| Calendar.DaysCountTheCalendar | packages/protocol/src/connector.ts:111-127 | for every year, month and day the closed form equals the count obtained by walking the calendar month by month and year by year from 1970-01-01 |
| Calendar.DaysStrictlyIncrease | packages/protocol/src/connector.ts:75-127 | the day count is strictly increasing on valid dates |
| Calendar.CompareIsExact | packages/protocol/src/connector.ts:178-199 | comparing two timestamps is comparing their exact instants at any unit that expresses both |
| Calendar.CompareIsTotalOrder | packages/protocol/src/connector.ts:178-199 | the comparison is antisymmetric, total and transitive |
| Calendar.KeysAreInstants | packages/protocol/src/connector.ts:171-176 | two valid timestamps share an instant key if and only if they compare equal |
| Calendar.UnitsRefine | packages/protocol/src/connector.ts:189-198 | padding a fraction to a finer unit does not move the instant |
| Decimal.IntTextRoundTrip | packages/harness-plugin/src/runtime/coordination-deadlines.ts:102-110 | rendering an integer and parsing it back is the identity, negative ones included |
| Timestamps.WrittenReads | packages/protocol/src/connector.ts:73-199 | every timestamp written with two-digit fields, an optional fraction and Z or a signed offset reads back field by field |
| Timestamps.ReadWasWritten | packages/protocol/src/connector.ts:73-199 | whatever the parser accepts is such a text |
| Timestamps.WrittenInstant | packages/protocol/src/connector.ts:75-199 | a written calendar date denotes the walked days, its time of day and its offset taken off; a date that is none denotes nothing |
| Binary64.ClockUnitsExact | packages/harness-plugin/src/runtime/coordination-deadlines.ts:84-100 | for every finite binary64 number and every scale of at least 1074 decimal digits the integer conversion is exact, subnormals included |
| Binary64.DoubleMeans | packages/harness-plugin/src/runtime/coordination-deadlines.ts:84-100 | the fields of a double denote the number that IEEE 754 says they do |
| Deadlines.FloorDeadlineFloors | packages/harness-plugin/src/runtime/coordination-deadlines.ts:112-117 | the corrected truncating division is the floor of the exact value, or undefined when that is not a safe integer |
| Deadlines.InstantUnitsExact | packages/harness-plugin/src/runtime/coordination-deadlines.ts:102-110 | the integer of a timestamp key is its instant in milliseconds, exactly |
| Deadlines.StableExact | packages/harness-plugin/src/runtime/coordination-deadlines.ts:119-133 | the offset test equals its real-number meaning at every sufficient scale |
| Deadlines.WaiterRemainingExact | packages/harness-plugin/src/runtime/coordination-deadlines.ts:138-157 | a waiter has time left exactly while 0 to 1999 ms have elapsed on stable clocks, and reports the whole milliseconds left of two seconds |
| Deadlines.AdmissionIsExact | packages/harness-plugin/src/runtime/coordination-deadlines.ts:180-246 | the BigInt admission succeeds exactly when the real-number inequalities hold, and retains the exact floors of the three endpoints |
| Conservative.ChecksAreConservative | packages/harness-plugin/src/runtime/coordination-deadlines.ts:292-309 | if the server stamped observed_at between send and receive, every check that passes does so more than 1000 ms before the true expiry of the job, and of the snapshot and the lease when they are required |
| Conservative.ReconciliationIsConservative | packages/harness-plugin/src/runtime/coordination-deadlines.ts:312-323 | the same for remote closure and the snapshot window |
| Conservative.AdmissionNeedsOneSecond | packages/harness-plugin/src/runtime/coordination-deadlines.ts:210-236 | successful admission forces a round trip under 1000 ms although the explicit test allows 2000 |
| AdmissionExample.ExampleIsAdmitted | packages/harness-plugin/src/runtime/coordination-deadlines.ts:180-246 | a concrete snapshot is admitted, with the deadlines one second short of its two seconds and of its hour |
| Conservative.SnapshotLastsTwoSeconds | packages/protocol/src/connector.ts:260-275 | the schema refinement makes state_valid_until exactly two seconds after observed_at as instants |
| Conservative.SchemaExactly | packages/protocol/src/connector.ts:224-275 | the state schema accepts exactly 32-bit numbers with a cancellation no later than the revision, lease fields together, readable times, and a window of exactly two seconds |
| Conservative.CancellationIsExact | packages/harness-plugin/src/runtime/coordination-deadlines.ts:17-56 | the deadline of a cancel command is the floor of the earlier of the two conservative endpoints, whenever that is safe and ahead |
| Conservative.CancellationIsConservative | packages/harness-plugin/src/runtime/coordination-deadlines.ts:17-56 | below that deadline both command and job are more than 1000 ms from their true expiry |
| Conservative.ApprovalDeadlinesExact | packages/harness-plugin/src/runtime/coordination-deadlines.ts:248-284 | both approval deadlines are the exact floors of the job end and the requested lifetime, each clamped to the earlier, for 60 to 1800 seconds |
| Authority.LatchedAuthority | packages/harness-plugin/src/runtime/terminal-authority.ts:195-271 | for any sequence of calls on one token: successes form a prefix that starts with a begin inside the snapshot window, sampled times never decrease and stay below the job deadline (for reconcile the snapshot deadline, for cancel also the command deadline) |
| Authority.RevokedIff | packages/harness-plugin/src/runtime/terminal-authority.ts:231-250 | a token is revoked exactly when some earlier call failed; otherwise it is admitted after the first call and remembers the last sampled time |
| Authority.AuthorityIsConservative | packages/harness-plugin/src/runtime/terminal-authority.ts:382-511 | a token from the issuer, however often it is used, never succeeds within a second of the true end of the job (of the snapshot for reconcile) or of the cancel command |
| Tokens.TransitionPairs | apps/control-plane/src/domain/job-state.ts:3-26 | the transition relation and the terminal and claimed statuses, pair by pair |
| Tokens.EligibleExactly | packages/harness-plugin/src/runtime/terminal-authority.ts:286-316 | a snapshot allows an operation exactly when the job machine lets a claimed job go where the operation takes it, a cancellation exactly when state and command name it |
| Tokens.CurrentIsExact | packages/harness-plugin/src/runtime/coordination-deadlines.ts:292-309 | the integer checks of an admitted timing are exactly the real inequalities on the samples |
| Tokens.MayIssueExactly | packages/harness-plugin/src/runtime/terminal-authority.ts:273-490 | what the issuer compares before it admits a timing |
| Tokens.IssuesExactly | packages/harness-plugin/src/runtime/terminal-authority.ts:382-490 | a capability is issued exactly when the operation is allowed, the timing admitted, a cancel command has a deadline and the first sample would pass, and holds exactly that |
| Tokens.SucceedsExactly | packages/harness-plugin/src/runtime/terminal-authority.ts:195-271 | in any sequence of calls the next succeeds exactly when none before it failed and its binding, liveness, order and deadlines fit |
| Authority.TerminalAuthority.Check | packages/harness-plugin/src/runtime/terminal-authority.ts:211-250 | the method updates admitted, revoked and the last sample exactly as specified |
| Utf8.DecodeComplete | apps/control-plane/src/connector/gateway.ts:38-38 | every string of scalar values decodes from its UTF-8 encoding |
| Utf8.PointLayout | apps/control-plane/src/connector/gateway.ts:38-38 | the number of bytes, marker bits and payload bits of each code point are those of RFC 3629 |
| Utf8.DecodeSound | apps/control-plane/src/connector/gateway.ts:38-38 | whatever the fatal decoder accepts is the encoding of what it delivers |
| Frames.MaskedFrameDecodes | apps/control-plane/src/connector/gateway.ts:357-421 | a masked, minimally encoded frame decodes to its payload, whatever bytes follow it |
| Frames.DecodedWasEncoded | apps/control-plane/src/connector/gateway.ts:357-421 | whatever the reader accepts is such an encoding of exactly what it delivers |
| Frames.ParseIsMonotone | apps/control-plane/src/connector/gateway.ts:357-418 | what the first bytes decide, later bytes do not change |
| Frames.ServerFrameReads | apps/control-plane/src/connector/gateway.ts:196-209 | what the server writes a client reads back, in all three length forms |
| FrameReading.ChunkingIndependent | apps/control-plane/src/connector/gateway.ts:354-480 | however a byte stream is cut into chunks the reader emits the same events, closes alike and, while open, ends in the same state |
| FrameReading.BufferBounded | apps/control-plane/src/connector/gateway.ts:354-418 | between chunks the buffer holds fewer than 65550 bytes unless closing |
| FrameReading.FrameReader.Read | apps/control-plane/src/connector/gateway.ts:354-480 | the parsing loop over one chunk does exactly what the specification of the buffered bytes says |
| FrameReading.FrameReader.NextFrame | apps/control-plane/src/connector/gateway.ts:357-421 | removes and unmasks the frame at the front, or reports that it is incomplete or bad |
| FrameReading.FrameReader.Take | apps/control-plane/src/connector/gateway.ts:422-478 | the effect of one complete frame on the fragment state |
| FrameReading.Unmask | apps/control-plane/src/connector/gateway.ts:419-421 | in-place unmasking equals the mask function |
| Messages.EveryStream | apps/control-plane/src/connector/gateway.ts:354-480 | for every byte stream and every chunking, a new connection delivers, answers and closes exactly as the frames of the stream mean under sections 5.2 to 5.5 of RFC 6455, then rejects the remainder if its header is bad |
| Messages.CompleteStream | apps/control-plane/src/connector/gateway.ts:354-480 | any sequence of client frames produces exactly the events of the frame-level interpretation |
| Messages.RejectionIsFinal | apps/control-plane/src/connector/gateway.ts:364-410 | a remainder is rejected only when no acceptable frame begins with it |
| Messages.OverheadNeverFires | apps/control-plane/src/connector/gateway.ts:450-460 | the fragment-overhead limit is never the one that fires |
| Texts.XorFlipsBits | apps/control-plane/src/connector/gateway.ts:419-421 | masking flips each bit exactly where the mask is set |
| Texts.TextsAreDelivered | apps/control-plane/src/connector/gateway.ts:449-477 | every string of scalar values, however split into frames, masked and chunked, is delivered as it is, less a leading byte order mark |
| Texts.NonTextsClose | apps/control-plane/src/connector/gateway.ts:472-477 | a message that encodes no string closes with 1007 |
| Texts.ClosesAreAnswered | apps/control-plane/src/connector/gateway.ts:422-442 | a close frame is answered without a status exactly if it is empty or carries a permitted status and a text, and otherwise with 1002 |
| Texts.PingsAreAnswered | apps/control-plane/src/connector/gateway.ts:443-447 | a ping is answered with its payload, a pong with nothing |
| Texts.IllegalHeaders | apps/control-plane/src/connector/gateway.ts:358-380 | which two header bytes are refused with 1002 or 1003, and that no others are |
| Texts.IllegalLengths | apps/control-plane/src/connector/gateway.ts:381-411 | which lengths are refused as not minimal or too long |
| Outbound.OutboundQueue.SendFrame | apps/control-plane/src/connector/gateway.ts:187-224 | accepts exactly below 128 frames and 256 KiB, keeps order and the byte account, and ends the connection on overflow |
| Outbound.OutboundQueue.DrainWrites | apps/control-plane/src/connector/gateway.ts:226-252 | hands the oldest frame to the socket, one at a time |
| Outbound.OutboundQueue.WriteSettled | apps/control-plane/src/connector/gateway.ts:232-251 | a finished write lets the next frame go; a failed one ends the connection and sends nothing more |
| Outbound.OutboundQueue.CloseGracefully | apps/control-plane/src/connector/gateway.ts:146-165 | refuses what is queued and puts one close frame after what the socket already has |
| Sender.FirstTransmissionsAreConsecutive | apps/control-plane/src/connector/gateway.ts:771-835 | in every run, whatever fails or interleaves, the scan and the final protocol error put on the wire exactly the consecutive run of stored rows after the hello cursor |
| Sender.WholeWireInOrder | apps/control-plane/src/connector/gateway.ts:771-835 | in every run the whole wire, retransmissions included, is in order (nothing is sent before every row between the cursor and it) if and only if no retransmission goes out more than one past the highest sequence sent before it |
| Sender.RetransmissionInOrder | apps/control-plane/src/connector/gateway.ts:778-782 | on any connection whose wire is in order one more retransmission keeps the order if and only if it is at most one past the highest sequence sent |
| Sender.RetransmissionCanOvertake | apps/control-plane/src/connector/gateway.ts:778-782 | a concrete run in which the retransmitted answer to a duplicate overtakes unsent rows |
| JournalTheorems.AlwaysReadable | packages/harness-plugin/src/store/plugin-store.ts:422-574 | in a run of prepare, advance, commit, reconcile, enqueue, renew, acknowledge, record, replace, deliver and mapJob the redundant indexes agree and readOwnedIntents reports no corruption at every moment if and only if no mapJob of the run writes a journal status |
| JournalInvariant.MapJobKeepsIff | packages/harness-plugin/src/store/plugin-store.ts:1430-1519 | a successful mapJob keeps the journal readable if and only if its status is not one of the four journal phases |
| JournalInvariant.MapJobCanCorrupt | packages/harness-plugin/src/store/plugin-store.ts:1430-1519 | a concrete mapJob that leaves the journal unreadable |
| JournalInvariant.PrepareKeeps | packages/harness-plugin/src/store/plugin-store.ts:576-663 | preparing an intent keeps the representation invariant |
| JournalInvariant.AdvanceKeeps | packages/harness-plugin/src/store/plugin-store.ts:688-768 | advancing an intent keeps it |
| JournalInvariant.CommitKeeps | packages/harness-plugin/src/store/plugin-store.ts:861-985 | a local terminal commit keeps it: the self-check at its end cannot fail |
| JournalInvariant.ReconcileKeeps | packages/harness-plugin/src/store/plugin-store.ts:987-1043 | a remote closure keeps it |
| JournalInvariant.RenewKeeps | packages/harness-plugin/src/store/plugin-store.ts:1797-1823 | renewing a delivery keeps every marker and the row it cites in agreement |
| JournalInvariant.AdvancedOk | packages/harness-plugin/src/store/owned-intent.ts:50-137 | every transition yields a record the schema accepts, still open and with the same owner |
| JournalInvariant.SuccessorOk | packages/harness-plugin/src/store/owned-terminal.ts:332-389 | the closed form of any valid terminal record is itself a valid intent |
| JournalStore.ReadOwnedIntents | packages/harness-plugin/src/store/plugin-store.ts:422-574 | the loop that ticks off index rows and compares counts accepts exactly the readable journals and returns their records |
| JournalTheorems.FirstWriterWins | packages/harness-plugin/src/store/plugin-store.ts:861-1043 | in every run, with no condition on it, the first terminal record of an attempt, local or remote, is never changed, and every later commit that succeeds returns it |
| JournalTheorems.CommitReturnsWinner | packages/harness-plugin/src/store/plugin-store.ts:900-917 | a commit against a closed attempt returns the record that closed it and changes nothing |
| JournalTheorems.AtMostOneTerminalMessage | packages/harness-plugin/src/store/plugin-store.ts:1572-1685 | once an intent is prepared the only terminal message for its attempt that ever enters the outbox is the one its local marker cites, at every moment of a run, if and only if no step of the run awakens a dormant one |
| JournalTheorems.RenewKeepsIff | packages/harness-plugin/src/store/plugin-store.ts:1797-1823 | a renewal, accepted or refused, keeps the marker's message the only new one if and only if it does not complete a row that was a terminal message for the attempt but for its expiry |
| JournalTheorems.RenewalAwakens | packages/harness-plugin/src/store/plugin-store.ts:1617-1621 | from any store with the attempt prepared, one generic enqueue without expiry and one renewal get a terminal message past the guard |
| JournalTheorems.ReceiptsSurvive | packages/harness-plugin/src/store/plugin-store.ts:1165-1384 | through any later run a stored coordination receipt is unchanged and still reads, a proven job.state sequence stays delivered, the contiguous frontier does not fall, and every outbound event up to the proven prefix is acknowledged |
| JournalTheorems.RunsOnlyGrow | packages/harness-plugin/src/store/plugin-store.ts:1045-1242 | every run, with any arguments, keeps message ids unique, receipts good and the proven prefix acknowledged, and undoes nothing |
| JournalEffects.ReadableAgrees | packages/harness-plugin/src/store/plugin-store.ts:422-574 | a readable journal is one whose intent, indexes and single mapping agree for every attempt |
| JournalEffects.ReadableStatus | packages/harness-plugin/src/store/plugin-store.ts:422-574 | and whose mapping shows the phase of the intent or how it ended |
| JournalEffects.ReadableMarker | packages/harness-plugin/src/store/plugin-store.ts:422-574 | and whose markers stand for the open record before them, cite the very message still stored, or the terminal state that closed them |
| JournalEffects.PrepareExactly | packages/harness-plugin/src/store/plugin-store.ts:576-663 | an offer is taken up exactly when it is valid, stored as received, and nobody has its job, session or generation; the record holds what the offer says |
| JournalEffects.PrepareAgain | packages/harness-plugin/src/store/plugin-store.ts:576-663 | preparing the same offer again returns the record as it stands by now and changes nothing; any other offer for the attempt conflicts |
| JournalEffects.AdvanceExactly | packages/harness-plugin/src/store/plugin-store.ts:688-768 | the four phases and the loss of a session, each exactly from where it may come and with exactly its own change |
| JournalEffects.ProposalExactly | packages/harness-plugin/src/store/owned-terminal.ts:280-331 | which message may close an attempt by which operation, and with which status |
| JournalEffects.CommitsWhenItMay | packages/harness-plugin/src/store/plugin-store.ts:871-985 | a commit closes an open attempt exactly when granted, fitting the record and version, in the observed mode, with a new message of its own |
| JournalEffects.CommitWrites | packages/harness-plugin/src/store/plugin-store.ts:815-985 | the attempt closes with a record of exactly the proposal, and its message is queued unacknowledged and profiled |
| JournalEffects.CommitSaysWhy | packages/harness-plugin/src/store/plugin-store.ts:871-985 | a commit says revoked exactly without authority, corrupt exactly for an unreadable journal, and not monotonic, not stored or invalid only for the message that is so |
| JournalEffects.AgainstExactly | packages/harness-plugin/src/store/plugin-store.ts:900-917 | a repeated commit is told the record and whether it was the same proposal |
| JournalEffects.ReconcilesWhenItMay | packages/harness-plugin/src/store/plugin-store.ts:996-1043 | a remote closure happens exactly for a terminal state of this job, repository, attempt and mode |
| JournalEffects.ReconcileWrites | packages/harness-plugin/src/store/plugin-store.ts:815-1043 | the attempt closes with the state reported, and no message is queued |
| JournalEffects.ClosedAnswers | packages/harness-plugin/src/store/plugin-store.ts:871-1043 | on a closed attempt a commit or a reconciliation that fits is told the record, any other conflicts, and nothing changes |
| JournalEffects.RecordAccepts | packages/harness-plugin/src/store/owned-terminal.ts:180-389 | a terminal record is accepted exactly if it closes a valid open intent one version on, by a fitting proposal that yields its status or by the terminal state of that very attempt |
| JournalEffects.HeldBack | packages/harness-plugin/src/store/owned-terminal.ts:36-56 | the guard holds back everything for an owned attempt but the four generic events without a status |
| JournalEffects.EnqueueExactly | packages/harness-plugin/src/store/plugin-store.ts:1589-1685 | a new message is stored exactly as given, unacknowledged, above all others, exactly when it is not held back |
| JournalEffects.EnqueueAgain | packages/harness-plugin/src/store/plugin-store.ts:1622-1685 | an id is used once: an exact repetition changes nothing |
| JournalEffects.UnreadableIsLeftAlone | packages/harness-plugin/src/store/plugin-store.ts:576-1685 | nothing that depends on the records is done to a journal that does not read, held-back messages included |
| JournalEffects.RenewExactly | packages/harness-plugin/src/store/plugin-store.ts:1797-1823 | a renewal gives one row a later expiry and touches nothing else |
| JournalEffects.AcknowledgeExactly | packages/harness-plugin/src/store/plugin-store.ts:1772-1795 | acknowledgeThrough moves the proven prefix to the named row, never back, and acknowledges exactly the rows up to it |
| JournalEffects.AcknowledgeEventExactly | packages/harness-plugin/src/store/plugin-store.ts:1866-1876 | acknowledgeEvent acknowledges exactly the rows of the named message |
| JournalEffects.AcknowledgedOnlyIfNamed | packages/harness-plugin/src/store/plugin-store.ts:1759-1876 | in every run a row is acknowledged only if an acknowledgement of the run named its message or a row at or above it |
| JournalEffects.MapExactly | packages/harness-plugin/src/store/plugin-store.ts:1430-1519 | mapJob writes one mapping exactly when no owned job or session is touched and the session is bound to no other job |
| JournalEffects.RecordExactly | packages/harness-plugin/src/store/plugin-store.ts:1045-1110 | a new frame is stored as received at a free sequence under a new id; a repetition is a duplicate |
| JournalEffects.ReplaceExactly | packages/harness-plugin/src/store/plugin-store.ts:1165-1242 | a replacement changes exactly the row the caller saw |
| JournalEffects.CompletionFollows | packages/harness-plugin/src/store/plugin-store.ts:1165-1242 | the new row is complete exactly if the old one was and a receipt proves the sequence to be a state answer |
| JournalEffects.ReceiptTies | packages/harness-plugin/src/store/plugin-store.ts:1244-1293 | a receipt ties one answer to one profiled request it correlates with, about the very job, attempt and nonce, or a rejection of that kind of request |
| Inbound.ReplaceKeeps | packages/harness-plugin/src/store/plugin-store.ts:1165-1242 | a replacement keeps every receipt readable and transfers completion of a proven state |
| Inbound.RecordKeeps | packages/harness-plugin/src/store/plugin-store.ts:1045-1110 | recording a frame keeps them too |
| Inbound.ContiguousInbound | packages/harness-plugin/src/store/plugin-store.ts:1120-1131 | the loop returns the highest sequence with nothing missing below it |
| Inbound.FrontierGrows | packages/harness-plugin/src/store/plugin-store.ts:1120-1131 | there is one frontier and storing more never lowers it |
| JournalStore.PluginStore.PrepareOwnedIntent | packages/harness-plugin/src/store/plugin-store.ts:576-663 | the transaction as statements on the store: exactly the specified tables and value, or nothing, and the store's invariant is kept |
| JournalStore.PluginStore.AdvanceOwnedIntent | packages/harness-plugin/src/store/plugin-store.ts:688-768 | one phase or one unavailability at the expected version, record and mapping together; the same unavailability again changes nothing |
| JournalStore.PluginStore.CommitTerminal | packages/harness-plugin/src/store/plugin-store.ts:871-985 | the checks in the source order, then record, marker, mapping, outbound row and profile together; an existing record is returned unchanged |
| JournalStore.PluginStore.ReconcileTerminal | packages/harness-plugin/src/store/plugin-store.ts:996-1043 | a remote closure at the expected version and mode, or the existing record, or a refusal that changes nothing |
| JournalStore.PluginStore.WriteTerminal | packages/harness-plugin/src/store/plugin-store.ts:815-859 | record, mapping status and marker together |
| JournalStore.PluginStore.Enqueue | packages/harness-plugin/src/store/plugin-store.ts:1589-1685 | the generic publication guard, idempotence on an exact repetition, strictly increasing sequences; commits exactly the row and its profile, or nothing |
| JournalStore.PluginStore.MapLegacyJob | packages/harness-plugin/src/store/plugin-store.ts:1430-1519 | refuses anything that touches an owned job or session in any letter case or reuses a session; otherwise writes one mapping and nothing else; the store stays valid exactly when that mapping has no journal status |
| JournalStore.PluginStore.Record | packages/harness-plugin/src/store/plugin-store.ts:1045-1110 | a new frame with its receipt, an exact duplicate without effect, or a refusal |
| JournalStore.PluginStore.Replace | packages/harness-plugin/src/store/plugin-store.ts:1165-1242 | the row replaced in place, its receipt inserted once, completion of a proven state carried over, other completions dropped |
| JournalStore.PluginStore.RenewDelivery | packages/harness-plugin/src/store/plugin-store.ts:1797-1823 | only the expiry of one row changes, to one later than its sending, and a profiled row must still be its own message |
| JournalStore.PluginStore.AcknowledgeOutbound | packages/harness-plugin/src/store/plugin-store.ts:1772-1795 | the proven prefix moves forward to a row of the given correlation and everything up to it is acknowledged, or nothing changes |
| JournalStore.Execute | packages/harness-plugin/src/store/plugin-store.ts:576-1876 | a store object that carries out any sequence of transactions holds exactly what the run computes, so every theorem about runs is one about the object; after a run in which no mapJob writes a journal status it is valid |
| Broker.BrokerIsSafe | packages/harness-plugin/src/approvals/approval-broker.ts:71-279 | in every run at most 32 requests are admitted, one per job and attempt; each waiter settles and each request is answered at most once; a request answered allowed-once was approved by exactly one accepted decision, which matches what it published, before its own deadline and before that decision expired, by a broker not disposed |
| Broker.RequestExactly | packages/harness-plugin/src/approvals/approval-broker.ts:81-204 | a request is admitted exactly when nothing refuses it, there is room and it has a reservation, and then waits for what it published |
| Broker.DecisionResolves | packages/harness-plugin/src/approvals/approval-broker.ts:235-273 | a decision is accepted exactly while its waiter waits in time for it, and the request resolves with it, good until the earlier deadline |
| Broker.OutcomeExactly | packages/harness-plugin/src/approvals/approval-broker.ts:205-232 | the caller is told allowed-once exactly if so resolved, with authority, on a live broker and in time |
| Broker.ApprovalGoesThrough | packages/harness-plugin/src/approvals/approval-broker.ts:205-273 | a matching approval in time is delivered as allowed-once if nothing is lost on the way |
| Broker.RemoteApprovalBroker.BeginRequest | packages/harness-plugin/src/approvals/approval-broker.ts:81-204 | admission, waiter and early settlement up to the await |
| Broker.RemoteApprovalBroker.AcceptDecision | packages/harness-plugin/src/approvals/approval-broker.ts:235-273 | accepts exactly the timely, matching decision of a live waiter |
| Broker.RemoteApprovalBroker.FinishRequest | packages/harness-plugin/src/approvals/approval-broker.ts:205-232 | the last checks after the await: abort, authority, disposal and both deadlines, then the admission ends |
| Broker.RemoteApprovalBroker.Dispose | packages/harness-plugin/src/approvals/approval-broker.ts:275-278 | settles every waiter and leaves none |
| Rendering.NoCoveredCharacterIsCopied | packages/harness-plugin/src/redaction/redact-event.ts:174-203 | for every text and every set of non-empty spans the merged spans are in order, apart and cover the same positions, and the rendering consists of replacement texts and of points copied from positions no span covers |
| Rendering.Render | packages/harness-plugin/src/redaction/redact-event.ts:186-203 | the untrimmed result is the longest whole-point prefix, at most 500 bytes, of the full rendering |
| Rendering.OriginsAreOutside | packages/harness-plugin/src/redaction/redact-event.ts:174-203 | the full rendering of arbitrary non-empty spans is made of points of replacement texts (the value of a span, or the mark for overlapping ones) and of points copied in ascending order from exactly the positions that no span covers |
| Rendering.RenderSpans | packages/harness-plugin/src/redaction/redact-event.ts:174-203 | from arbitrary non-empty spans to the result: the longest prefix that fits of the full rendering, showing its first origins one after the other, of which every made point belongs to a replacement text and every copied one to a position no span covers, in order and with nothing uncovered left out of the whole |
| Rendering.LongestIsUnique | packages/harness-plugin/src/redaction/redact-event.ts:188-195 | there is only one such prefix |
| Rendering.NoControlIsShown | packages/harness-plugin/src/redaction/redact-event.ts:186-203 | no control character is shown |
| Rendering.Append | packages/harness-plugin/src/redaction/redact-event.ts:188-195 | appends point by point and stops at the first that does not fit |
| Rendering.ByteLengthIsUtf8 | packages/harness-plugin/src/redaction/redact-event.ts:191-191 | the bytes counted for a point are the length of its UTF-8 encoding |
| Redaction.MergeAllKeeps | packages/harness-plugin/src/redaction/redact-event.ts:176-183 | merging sorted spans keeps them in order, apart and with the same union |
| Redaction.MergesRightly | packages/harness-plugin/src/redaction/redact-event.ts:174-185 | spans that overlap no other are kept as they are, and every other merged span shows the mark |
| Redaction.Merge | packages/harness-plugin/src/redaction/redact-event.ts:176-183 | the loop computes that merge |
| Redaction.SortSorts | packages/harness-plugin/src/redaction/redact-event.ts:175-175 | the sort orders by the comparator and permutes |
| Agreement.TerminalAgreement | packages/harness-plugin/src/runtime/terminal-authority.ts:286-316 | a terminal proposed under an eligible snapshot, arriving in sequence while the job is as observed, unexpired and below the revision limit, commits and leaves the job in exactly the proposed status, acknowledged |
| Agreement.EndToEnd | packages/harness-plugin/src/store/plugin-store.ts:871-985 | a capability issued from one exchange, a commit all of whose checks pass, and the arrival of its message while the job is as observed: each check came more than a second before the true end of the job, and the control plane ends the job with exactly the status of the committed record |
| AgreementExample.ExampleEndsTheJob | packages/harness-plugin/src/runtime/terminal-authority.ts:286-316 | the hypotheses of the end-to-end theorem can be met together: from an empty journal an offer is stored, an intent prepared and lost, a capability issued, a failure committed, and the control plane ends the job as failed |
| Agreement.CommitIsAdmitted | packages/harness-plugin/src/runtime/terminal-authority.ts:286-316 | what the issuer and the journal check together is what the control plane needs to accept the status |
| Agreement.TerminalVerdict | apps/control-plane/src/connector/outbox.ts:1495-1595 | the same at the level of the business effect, with revision + 1 and a terminal time |
| Agreement.EventNamesStatus | packages/harness-plugin/src/store/owned-terminal.ts:280-331 | a valid terminal proposal carries no status field and its event type names its status |
| Agreement.JournalAdmitsOnlyGeneric | packages/harness-plugin/src/store/owned-terminal.ts:36-55 | whatever enqueueEvent stores for an owned attempt and the schema accepts is one of the four generic events without a status |
| Agreement.GenericNeverChangesStatus | apps/control-plane/src/connector/outbox.ts:1383-1413 | no such event can change the status of any job at the control plane |
| Agreement.HelloAcknowledgesOnlyStored | apps/control-plane/src/connector/outbox.ts:1968-2002 | over both ends: a frontier taken at any moment of any run of the journal and reported in a hello that is accepted, for the first time or again, at any moment of any run of the control plane makes it mark as delivered only rows that the journal still stores when it has run on |

## Left out

- The control plane's raw `transitionAndAppend`, which checks no lease, is not a step of the runs; neither is `acknowledgeResult`.
- Short job ids with their retry loop and exhaustion, and the branch of `createIdempotent` for a record inserted concurrently, which its advisory lock and one atomic step rule out.
- Row locks, `SKIP LOCKED` order and database errors: a transaction is one atomic step, and which offerable job it takes is an input.
- Current stage, summaries, connector health, heartbeats' timestamps and uniqueness of job-event message ids in the control plane's tables.
- Sub-millisecond timestamps in the control plane's tables, which the model keeps as integers; exact instants are modelled where the connector computes with them.
- `enqueueServer` is modelled as the gateway uses it, to report a protocol failure.
- Materializing an offer (decrypting the request) and everything cryptographic: scrypt, HMAC, AES-GCM, the keychain.
- Delivery.ExactlyOnce: a hello is replayed with its welcome but without repeating its replay batch, as the code does.
- Text forms that the protocol schema checks in a server message (UUIDs, repository ids, bounded texts, four-digit years): ids are opaque and times are instants in the control plane's tables. Its numbers, times, bounds and cross-field rules are modelled.
- WebSocket socket timers, pong coalescing, the timing of a graceful close, and a message handler that throws or closes from inside the parsing loop.
- Delivered text is a sequence of code points; its conversion to UTF-16 is not modelled.
- Sender.FirstTransmissionsAreConsecutive: speaks of the scan and the final error; retransmissions are the subject of Sender.WholeWireInOrder.
- The connector client's transport is abstracted as recording each received frame and sending hello with the contiguous frontier.
- The byte limits on stored intents and markers (16 KiB and 64 KiB), attempt counters, hello pinning and disposition marks of the journal: they only add refusals or annotations.
- Storage classes of SQLite columns, schema migration, the closed flag and reentrant calls during a terminal commit.
- Journal.Commit: the four authority checks of a commit are one input saying whether they all pass; what makes them pass is the subject of the authority module.
- Listing orders of intents and jobs.
- Grant liveness of the approval broker with its reservation provider, and reentrant reservation callbacks: only safety is stated.
- The cancel handler composed with its driver.
- Detectors of the redactor (regular expressions, URL and path policy, assignment scanning) and the final trim of the rendered text: spans are an input.
- Conservative.ChecksAreConservative: assumes that the two machines' monotonic clocks advance at the same rate between the stamp and the check.
- HTTP, MCP, metrics, session registry, RTC providers and presentation text: smaller and easier than the parts above.
- JavaScript object semantics: getters, proxies, `toJSON` hooks and descriptor defences.
