/** The job status machine (apps/control-plane/src/domain/job-state.ts). */
module JobState {
  datatype JobStatus =
    | Queued | Dispatched | Running | WaitingApproval | Cancelling
    | Succeeded | Failed | Cancelled | Expired

  predicate Terminal(s: JobStatus) {
    s.Succeeded? || s.Failed? || s.Cancelled? || s.Expired?
  }

  /** Claimed and still open: the statuses that occupy a concurrency slot. */
  predicate Claimed(s: JobStatus) {
    s.Running? || s.WaitingApproval? || s.Cancelling?
  }

  predicate CanTransition(from: JobStatus, to: JobStatus) {
    match from
    case Queued => to.Dispatched? || to.Cancelled? || to.Expired?
    case Dispatched => to.Running? || to.Cancelled? || to.Expired?
    case Running => to.WaitingApproval? || to.Cancelling? || to.Succeeded? || to.Failed? || to.Expired?
    case WaitingApproval => to.Running? || to.Cancelling? || to.Failed? || to.Expired?
    case Cancelling => to.Cancelled? || to.Succeeded? || to.Failed? || to.Expired?
    case _ => false
  }
}
