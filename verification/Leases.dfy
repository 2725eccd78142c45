/** What a lease is worth at an instant, and what renewing, reporting or losing one does to a row. */
module Leases {
  import opened Prelude
  import opened JobRecord

  // How long a device that is still announcing itself may be late.
  const LIVE_DEVICE_GRACE_SECONDS: real := 60.0
  const AGENT_RETENTION_SECONDS: real := 2592000.0

  type Agents = map<Device, real>

  datatype Refusal = UnknownJob | NotLeased | LeaseExpired | NoVerdict

  /** Whether a device announced itself within the grace. */
  predicate Present(agents: Agents, device: Device, now: real) {
    device in agents && agents[device] >= now - LIVE_DEVICE_GRACE_SECONDS
  }

  /** The one rule for a spent lease, read by the reclaim, a renewal and a report. */
  predicate Spent(row: Job, agents: Agents, now: real) {
    && row.leaseExpires.Some?
    && row.leaseExpires.value < now
    && (row.leaseExpires.value < now - LIVE_DEVICE_GRACE_SECONDS
        || row.device.None?
        || !Present(agents, row.device.value, now))
  }

  /** Whether a device may still act on the run it holds. */
  predicate HoldsLease(row: Job, agents: Agents, device: Device, now: real) {
    row.status == Running && row.device == Some(device) && !Spent(row, agents, now)
  }

  /** Whether the reclaim takes the run back. */
  predicate Lapsed(row: Job, agents: Agents, now: real) {
    row.status == Running && Spent(row, agents, now)
  }

  function Announce(agents: Agents, device: Device, now: real): Agents {
    (map d | d in agents && agents[d] >= now - AGENT_RETENTION_SECONDS :: agents[d])[device := now]
  }

  function Renew(row: Job, agents: Agents, device: Device, lease: real, now: real): Job {
    if HoldsLease(row, agents, device, now) then row.(leaseExpires := Some(now + lease)) else row
  }

  /** The row a release leaves; only an owed verdict advances its number. */
  function Release(row: Job, now: real, error: string, owed: Option<Verdict>): Job {
    row.(
      status := if Parked(row.attempts) then Dead else Pending,
      device := None,
      leaseExpires := None,
      lastError := Some(Take(error, MAX_ERROR_CHARS)),
      availableAt := Some(now + BackoffSeconds(row.attempts)),
      pendingStatus := if owed.Some? then owed else row.pendingStatus,
      statusSeq := row.statusSeq + if owed.Some? then 1 else 0)
  }

  /** Record a report, or say why it is refused. Either outcome supersedes what is owed. */
  function Settle(row: Job, agents: Agents, device: Device, exitCode: Option<int>, error: string, findings: Findings,
                  now: real)
    : Result<Job, Refusal>
  {
    if row.status != Running || row.device != Some(device) then Err(NotLeased)
    else if Spent(row, agents, now) then Err(LeaseExpired)
    else if error != "" then
      Ok(Release(row.(pendingStatus := None, statusSeq := row.statusSeq + 1), now, error, None))
    else if exitCode.None? then Err(NoVerdict)
    else
      Ok(row.(
        status := if exitCode.value == 0 then Success else Failure,
        exitCode := exitCode,
        leaseExpires := None,
        lastError := None,
        findings := Some(Stored(findings)),
        pendingStatus := None,
        statusSeq := row.statusSeq + 1))
  }

  /** What each stage of a run's life implies about its row. */
  ghost predicate Lifecycle(row: Job) {
    match row.status
    case Pending =>
      row.attempts < MAX_ATTEMPTS && row.device.None? && row.leaseExpires.None? && row.exitCode.None?
    case Running =>
      1 <= row.attempts <= MAX_ATTEMPTS && row.device.Some? && row.leaseExpires.Some? && row.exitCode.None?
    case Success =>
      1 <= row.attempts <= MAX_ATTEMPTS && row.leaseExpires.None? && row.exitCode == Some(0)
    case Failure =>
      1 <= row.attempts <= MAX_ATTEMPTS && row.leaseExpires.None? && row.exitCode.Some? && row.exitCode.value != 0
    case Dead =>
      row.attempts == MAX_ATTEMPTS && row.device.None? && row.leaseExpires.None? && row.exitCode.None?
  }

  /**
   * At one instant the reclaim takes exactly the leases that a renewal, the lease check and a
   * report with something to say would all refuse, and a renewal is visible in the row.
   */
  lemma ReclaimTakesExactlyWhatTheDeviceLost(
      row: Job, agents: Agents, device: Device, exitCode: Option<int>, error: string, findings: Findings, lease: real,
      now: real)
    requires row.status == Running && row.device == Some(device)
    requires exitCode.Some? || error != ""
    requires lease > 0.0
    ensures Lapsed(row, agents, now) <==> !HoldsLease(row, agents, device, now)
    ensures Lapsed(row, agents, now) <==>
            Settle(row, agents, device, exitCode, error, findings, now) == Err(LeaseExpired)
    ensures Lapsed(row, agents, now) <==> Settle(row, agents, device, exitCode, error, findings, now).Err?
    ensures !Lapsed(row, agents, now) ==> Renew(row, agents, device, lease, now).leaseExpires == Some(now + lease)
    ensures Lapsed(row, agents, now) ==> Renew(row, agents, device, lease, now) == row
  {
  }

  /** Past the grace no presence table saves a lease; a fresh announcement before that does. */
  lemma GraceIsTheExactWindowAHeartbeatBuys(row: Job, agents: Agents, device: Device, now: real)
    requires row.status == Running && row.device == Some(device) && row.leaseExpires.Some?
    ensures Lapsed(row, Announce(agents, device, now), now)
       <==> row.leaseExpires.value + LIVE_DEVICE_GRACE_SECONDS < now
    ensures row.leaseExpires.value + LIVE_DEVICE_GRACE_SECONDS < now ==>
              forall present: Agents, later: real | later >= now :: Lapsed(row, present, later)
  {
  }
}
