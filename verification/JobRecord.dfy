/** The stored record of one run, its retry policy, and the commit status it produces. */
module JobRecord {
  import opened Prelude

  // A uuid4 in hex is a fixed-width number, so its text order is its numeric order.
  type JobId = nat
  type Device = string

  const MAX_ATTEMPTS: nat := 3
  const MAX_ERROR_CHARS: nat := 200
  const BASE_BACKOFF_SECONDS: real := 30.0
  const MAX_BACKOFF_SECONDS: real := 300.0
  const LEASE_LOST: string := "the device lease expired before the run finished"

  datatype Status = Pending | Running | Success | Failure | Dead

  datatype CommitState = PendingState | SuccessState | FailureState | ErrorState

  const MAX_LOG_CHARS: nat := 65536

  // What a device says of a run that ended: the step it stopped in, if one did not finish, and its log.
  datatype Findings = Findings(unfinished: Option<string>, log: string)

  // The sentence a status carries, before it is rendered and cut to length.
  datatype Text =
    | Passed
    | FailedRun(exitCode: int, findings: Findings)
    | LostRetrying(next: nat, error: string)
    | LostForGood(attempts: nat, error: string)

  datatype Verdict = Verdict(state: CommitState, text: Text)

  datatype Job = Job(
    repository: string,
    labels: set<string>,
    createdAt: real,
    delivery: Option<string>,
    status: Status,
    device: Option<Device>,
    leaseExpires: Option<real>,
    exitCode: Option<int>,
    attempts: nat,
    lastError: Option<string>,
    availableAt: Option<real>,
    pendingStatus: Option<Verdict>,
    statusSeq: nat,
    findings: Option<Findings>
  )

  function NewJob(repository: string, labels: set<string>, createdAt: real, delivery: Option<string>): Job {
    Job(repository, labels, createdAt, delivery, Pending, None, None, None, 0, None, None, None, 0, None)
  }

  function Doubled(base: real, times: nat): real {
    if times == 0 then base else 2.0 * Doubled(base, times - 1)
  }

  function BackoffSeconds(attempts: nat): real {
    var wait := Doubled(BASE_BACKOFF_SECONDS, if attempts == 0 then 0 else attempts - 1);
    if wait <= MAX_BACKOFF_SECONDS then wait else MAX_BACKOFF_SECONDS
  }

  predicate Parked(attempts: nat) {
    attempts >= MAX_ATTEMPTS
  }

  /** The log is kept up to a length; the steps were cut when they were validated. */
  function Stored(findings: Findings): Findings {
    findings.(log := Take(findings.log, MAX_LOG_CHARS))
  }

  /** A loss, final only when no attempt is left. */
  function LostDescription(row: Job, error: string): Verdict {
    if Parked(row.attempts) then Verdict(ErrorState, LostForGood(row.attempts, error))
    else Verdict(PendingState, LostRetrying(row.attempts + 1, error))
  }

  /** A row's stage as a commit sees it. */
  function StateFor(row: Job): CommitState {
    match row.status
    case Success => SuccessState
    case Failure => FailureState
    case Dead => if Parked(row.attempts) then ErrorState else PendingState
    case _ => PendingState
  }

  /** The wait before the next attempt grows with every attempt and never passes its cap. */
  lemma {:induction false} BackoffGrowsToItsCap(attempts: nat, later: nat)
    requires attempts <= later
    ensures BASE_BACKOFF_SECONDS <= BackoffSeconds(attempts) <= BackoffSeconds(later) <= MAX_BACKOFF_SECONDS
  {
    var a, b := if attempts == 0 then 0 else attempts - 1, if later == 0 then 0 else later - 1;
    DoublingGrows(a, 0);
    DoublingGrows(b, a);
  }

  lemma {:induction false} DoublingGrows(high: nat, low: nat)
    requires low <= high
    ensures BASE_BACKOFF_SECONDS <= Doubled(BASE_BACKOFF_SECONDS, low) <= Doubled(BASE_BACKOFF_SECONDS, high)
    decreases high
  {
    if low < high {
      DoublingGrows(high - 1, low);
    } else if low > 0 {
      DoublingGrows(low - 1, low - 1);
    }
  }
}
