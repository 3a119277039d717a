/** The whole path on one example, from an empty journal to an ended job: the
    hypotheses of the end-to-end theorem can all be met together. */
module AgreementExample {
  import opened Common
  import opened JobState
  import S = ServerTypes
  import opened Accept
  import D = Deadlines
  import J = JournalTypes
  import Journal
  import JournalInvariant
  import JournalRuns
  import JournalTheorems
  import Inbound
  import Binary64
  import Conservative
  import Authority
  import Agreement
  import A = AdmissionExample

  // ----- the journal: an offer is stored, its intent prepared, its session lost -----

  const Offer: J.ServerMessage :=
    J.ServerMessage(20, 1, J.Random(21), 0, 1, J.OfferResponse(J.OfferedJob(1, 1, 2, 3, 4)))
  const TheOwner: J.Owner := J.Owner(1, 1, 2, 10, 11)
  const Fresh: J.Intent :=
    J.Intent(TheOwner, 3, J.OfferRef(20, 1, 21, 0, 1), 12, 4, J.Prepared, 0, None, None, None)
  const LostIntent: J.Intent := Fresh.(version := 1, unavailable := Some(J.SessionLost))

  const Received: J.Tables := J.Empty.(inbound := map[1 := J.InRow(20, J.Read(Offer))])
  const Owned: J.Tables := Journal.AddIntent(Received, Fresh)
  const Ready: J.Tables := Journal.PutIntent(Owned, LostIntent)

  lemma OfferIsStored()
    ensures JournalRuns.Inv(Received)
  {
    JournalTheorems.EmptyInv();
    hide JournalRuns.Inv;
    var step := JournalRuns.RecordStep(20, 1, J.Read(Offer), None);
    JournalRuns.StepSound(J.Empty, step);
    assert Inbound.RecordInbound(J.Empty, 20, 1, J.Read(Offer), None).Done?;
  }

  lemma IntentIsPrepared()
    ensures Journal.Readable(Owned)
  {
    OfferIsStored();
    assert Journal.Readable(Received) by { hide Journal.Readable; }
    hide Journal.Readable, JournalRuns.Inv;
    assert !Journal.Taken(Received, TheOwner);
    assert Journal.Prepare(Received, Offer, 10, 12, 11) == Journal.Done(Owned, Fresh);
    JournalInvariant.PrepareKeeps(Received, Offer, 10, 12, 11);
  }

  const Losing: Journal.Transition := Journal.ToUnavailable(J.SessionLost)

  lemma SessionIsLost()
    ensures Journal.Readable(Ready)
  {
    IntentIsPrepared();
    hide Journal.Readable;
    assert Journal.Advance(Owned, TheOwner, 0, Losing) == Journal.Done(Ready, LostIntent);
    JournalInvariant.AdvanceKeeps(Owned, TheOwner, 0, Losing);
  }

  // ----- the terminal proposal and its message -----

  const TheBinding: J.Binding := J.Binding(TheOwner, 1, J.Lost(J.SessionLost))
  const Failure: J.Body := J.JobEvent(1, 1, "job.failed", true, J.UnavailableDetail(J.SessionLost))
  const Closing: J.Proposal := J.Proposal(TheBinding, J.CorrelationFor(TheOwner, J.Lost(J.SessionLost)), Failure)
  const Message: Journal.OutInput :=
    Journal.OutInput(30, 1, J.Payload(true, 30, 1, Closing.correlation, Some(0), J.At(60_000), Failure), true)

  lemma JournalCommits()
    ensures var c := Journal.Commit(Ready, Closing, A.Example, true, Message);
            c.Done? && c.value.Committed? && c.value.winner.status == Failed
  {
    SessionIsLost();
    hide Journal.Readable;
    assert J.ProposalStatus(Closing) == Some(Failed);
    assert Journal.EventFits(Message, Closing) && Journal.Above(Ready, 1) && !Journal.IdUsed(Ready, 30);
    assert J.RecordOk(Journal.LocalRecord(LostIntent, Closing, Failed, Message));
    hide J.ProposalStatus, J.RecordOk, Journal.Above, Journal.IdUsed, Journal.EventFits;
  }

  // ----- the capability -----

  const Seen: Authority.Exchange := Authority.Exchange(A.Example, A.Start, A.Start, true)
  const Begin: Authority.Call := Authority.Call(true, TheBinding, true, A.Start)

  lemma CapabilityIsIssued()
    ensures var c := Authority.Issue(LostIntent, TheBinding, None, Seen, true, A.Start);
            c.Some? && Authority.Succeeds(c.value, [Begin], 0)
    ensures Conservative.StampedBetween(A.Start, A.Start, 0.0)
  {
    A.ExampleIsAdmitted(true);
    A.ZeroReadsZero();
    Authority.AdmittedIsTimed(Seen, true);
    hide D.AdmitTiming, Binary64.Value, D.FiniteClock, Binary64.ClockUnits;
    assert Authority.MayIssue(LostIntent, TheBinding, None, Seen);
    assert [Begin][..0] == [];
  }

  // ----- the control plane -----

  const TheJob: S.Job := S.Job(5, Some(6), 2, Normal, Running, 3, None, 1, Some(3), Some(30_000), 3_600_000, None)
  const TheConnector: S.Connector := S.Connector(5, true, true, 0, 0, map[], map[])
  const TheDb: S.Db :=
    S.Db(0, S.Book(map[1 := TheJob], map[], map[1 := []]), map[6 := TheConnector], map[], map[])
  const Arrival: S.ClientMessage := S.ClientMessage(30, 1, 31, 0, 60_000, Agreement.OnServer(Failure))

  /** A capability is issued, the journal commits a failure under it, and the
      control plane ends the job as failed. */
  lemma ExampleEndsTheJob(uuid: nat -> Id)
    ensures var r := AcceptNew(x => x, TheDb, S.Identity(5, 6), TheConnector, Arrival, S.Times(0, 0, 0), uuid);
            r.Committed? && 1 in r.db.book.jobs && r.db.book.jobs[1].status == Failed
  {
    JournalCommits();
    CapabilityIsIssued();
    hide AcceptNew, Journal.Commit, Authority.Issue, Authority.Succeeds, Conservative.StampedBetween;
    Agreement.EndToEnd(LostIntent, None, Seen, true, A.Start, 0.0, [Begin], 0, Ready, Closing, Message,
                       x => x, TheDb, S.Identity(5, 6), TheConnector, Arrival, S.Times(0, 0, 0), uuid);
  }
}
