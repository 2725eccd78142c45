/** Which lane a request runs on, and what choosing it does to the metered ledger. */
module Routing {
  import opened Prelude
  import opened Metering

  datatype Quota = Available | PaidAllowed | Unknown | Exhausted | Other

  datatype Visibility = Public | Private | OtherVisibility

  // What billing last said of the hosted quota, when it said anything usable.
  datatype Reading = Reading(quota: Quota, remaining: Option<real>)

  datatype Request = Request(
    lane: string,
    visibility: Visibility,
    quota: Quota,
    remaining: Option<real>,
    estimated: real,
    target: Option<string>
  )

  datatype Runner = Runner(name: string, healthy: bool, online: bool, busy: bool, labels: set<string>)

  datatype Policy = Policy(
    hostedRunner: set<string>,
    localPriority: seq<string>,
    devices: set<string>,
    laneLabels: map<string, set<string>>,
    minimumRemaining: real,
    reserveMinutes: real,
    paidOverageAllowed: bool,
    unknownMeansHosted: bool,
    ceiling: Option<Ceiling>
  )

  datatype Decision = Decision(lane: string, runsOn: set<string>, runner: Option<string>, reservation: Option<nat>)

  datatype Unavailable = UnknownLane | NoTarget | UnknownTarget | NoRunner | NoLocalRunner

  type Routed = Result<Decision, Unavailable>

  predicate EligibleRunner(runner: Runner, required: set<string>) {
    runner.healthy && runner.online && !runner.busy && required <= runner.labels
  }

  /** The eligible runner whose name sorts first. */
  function FirstEligible(runners: seq<Runner>, required: set<string>): (best: Option<Runner>)
    ensures best.None? <==> forall i | 0 <= i < |runners| :: !EligibleRunner(runners[i], required)
    ensures best.Some? ==> best.value in runners && EligibleRunner(best.value, required)
  {
    if runners == [] then None
    else
      var rest := FirstEligible(runners[1..], required);
      if !EligibleRunner(runners[0], required) then rest
      else if rest.Some? && Precedes(rest.value.name, runners[0].name) then rest
      else Some(runners[0])
  }

  /** The name that sorts first among the eligible runners. */
  lemma {:induction false} TheFirstNameIsChosen(runners: seq<Runner>, required: set<string>, i: nat)
    requires i < |runners| && EligibleRunner(runners[i], required)
    ensures FirstEligible(runners, required).Some?
    ensures !Precedes(runners[i].name, FirstEligible(runners, required).value.name)
  {
    var best, rest := FirstEligible(runners, required).value, FirstEligible(runners[1..], required);
    TextsAreOrdered(runners[i].name, best.name);
    if i > 0 {
      TheFirstNameIsChosen(runners[1..], required, i - 1);
      TextsAreOrdered(rest.value.name, best.name);
      if best != rest.value && Precedes(runners[i].name, best.name) && Precedes(best.name, rest.value.name) {
        TextOrderIsTransitive(runners[i].name, best.name, rest.value.name);
      }
    } else if rest.Some? {
      TextsAreOrdered(runners[0].name, rest.value.name);
    }
  }

  /** Billing fills in a quota only where the request is automatic, private and left it unstated. */
  predicate ReadsBilling(request: Request) {
    && request.lane == "auto" && request.visibility.Private?
    && request.quota.Unknown? && request.remaining.None?
  }

  function Informed(request: Request, reading: Option<Reading>): Request {
    if ReadsBilling(request) && reading.Some? && !reading.value.quota.Unknown? then
      request.(quota := reading.value.quota, remaining := reading.value.remaining)
    else request
  }

  /** A stated figure, an explicit lane and a public repository route alike whatever billing says. */
  lemma BillingOnlyFillsWhatWasUnstated(policy: Policy, request: Request, runners: seq<Runner>, rows: Rows,
                                        readAt: Instant, wroteAt: Instant, one: Option<Reading>, other: Option<Reading>)
    requires !ReadsBilling(request)
    ensures Route(policy, Informed(request, one), runners, rows, readAt, wroteAt)
         == Route(policy, Informed(request, other), runners, rows, readAt, wroteAt)
  {
  }

  function HostedQuotaAvailable(policy: Policy, request: Request): bool {
    var fits := request.remaining.Some?
      && request.remaining.value - request.estimated - policy.reserveMinutes >= policy.minimumRemaining;
    match request.quota
    case Available => request.remaining.None? || fits
    case PaidAllowed => request.remaining.None? || fits
    case Unknown => policy.unknownMeansHosted
    case Exhausted => policy.paidOverageAllowed
    case Other => fits
  }

  function Hosted(policy: Policy): Decision {
    Decision(HOSTED_LANE, policy.hostedRunner, None, None)
  }

  function ExplicitLane(policy: Policy, lane: string, target: Option<string>, runners: seq<Runner>): Routed {
    if lane !in policy.laneLabels then Err(UnknownLane)
    else if lane == "device" && (target.None? || target.value == "") then Err(NoTarget)
    else if lane == "device" && target.value !in policy.devices then Err(UnknownTarget)
    else
      var required := policy.laneLabels[lane] + if lane == "device" then {target.value} else {};
      var runner := FirstEligible(runners, required);
      if runner.None? then Err(NoRunner) else Ok(Decision(lane, required, Some(runner.value.name), None))
  }

  /** The first lane of the local priority, past the device lane, that has an eligible runner. */
  function FirstLocal(policy: Policy, lanes: seq<string>, target: Option<string>, runners: seq<Runner>): Routed {
    if lanes == [] then Err(NoLocalRunner)
    else if lanes[0] == "device" || ExplicitLane(policy, lanes[0], target, runners).Err? then
      FirstLocal(policy, lanes[1..], target, runners)
    else ExplicitLane(policy, lanes[0], target, runners)
  }

  function ChooseLane(policy: Policy, request: Request, runners: seq<Runner>): Routed {
    if request.lane == HOSTED_LANE then Ok(Hosted(policy))
    else if request.lane != "auto" then ExplicitLane(policy, request.lane, request.target, runners)
    else if request.visibility.Public? || HostedQuotaAvailable(policy, request) then Ok(Hosted(policy))
    else FirstLocal(policy, policy.localPriority, request.target, runners)
  }

  /** The decision and the ledger it leaves behind. */
  function Route(policy: Policy, request: Request, runners: seq<Runner>, rows: Rows, readAt: Instant, wroteAt: Instant)
    : (Routed, Rows)
  {
    var (held, hold) := Reserved(rows, policy.ceiling, request.estimated, readAt, wroteAt);
    if hold.OverBudget? then (FirstLocal(policy, policy.localPriority, request.target, runners), held)
    else
      var chosen := ChooseLane(policy, request, runners);
      if hold.NoCeiling? then (chosen, held)
      else if chosen.Err? then (chosen, Released(held, Some(hold.id)))
      else if chosen.value.lane == HOSTED_LANE then (Ok(chosen.value.(reservation := Some(hold.id))), held)
      else (chosen, Released(held, Some(hold.id)))
  }

  /**
   * Routing charges the ledger exactly when, under a ceiling that admitted the request, it picks
   * the hosted lane: then one new row is held and named in the decision. A routing that raises
   * or picks another lane leaves the ledger as it found it.
   */
  lemma RoutingChargesOnlyTheHostedLane(policy: Policy, request: Request, runners: seq<Runner>, rows: Rows,
                                        readAt: Instant, wroteAt: Instant)
    ensures
      var (decision, after) := Route(policy, request, runners, rows, readAt, wroteAt);
      var charged := policy.ceiling.Some? && decision.Ok? && decision.value.lane == HOSTED_LANE
                     && Admits(policy.ceiling.value, SpentMinutes(rows, policy.ceiling.value, readAt),
                               request.estimated);
      && (charged ==>
            && decision.value.reservation == Some(NextId(rows))
            && NextId(rows) !in rows
            && after == WithHold(rows, wroteAt))
      && (!charged ==>
            && after == rows
            && (decision.Ok? ==> decision.value.reservation.None?))
  {
    AHoldGivenBackLeavesNoTrace(rows, policy.ceiling, request.estimated, readAt, wroteAt);
    LocalDecisionsHoldNothing(policy, policy.localPriority, request.target, runners);
    var held := Reserved(rows, policy.ceiling, request.estimated, readAt, wroteAt);
    assert held.1.Held? ==> Released(held.0, Some(held.1.id)) == rows;
    assert !held.1.Held? ==> held.0 == rows;
    hide Reserved, SpentMinutes, WithHold, Admits, FirstLocal;
    ReservedMeansAdmitted(rows, policy.ceiling, request.estimated, readAt, wroteAt);
  }

  lemma ReservedMeansAdmitted(rows: Rows, ceiling: Option<Ceiling>, estimate: real, readAt: Instant, wroteAt: Instant)
    ensures
      var (after, hold) := Reserved(rows, ceiling, estimate, readAt, wroteAt);
      && (hold.NoCeiling? <==> ceiling.None?)
      && (hold.Held? <==> ceiling.Some? && Admits(ceiling.value, SpentMinutes(rows, ceiling.value, readAt), estimate))
      && (hold.Held? ==> hold.id == NextId(rows) && after == WithHold(rows, wroteAt))
  {
  }

  /** A local decision names a listed lane, an eligible runner that carries its labels, and no hold. */
  lemma {:induction false} LocalDecisionsHoldNothing(policy: Policy, lanes: seq<string>, target: Option<string>,
                                                     runners: seq<Runner>)
    ensures
      var decision := FirstLocal(policy, lanes, target, runners);
      decision.Ok? ==>
        && decision.value.lane in lanes && decision.value.lane != "device"
        && decision.value.reservation.None? && decision.value.runner.Some?
        && exists i :: 0 <= i < |runners| && EligibleRunner(runners[i], decision.value.runsOn)
                       && runners[i].name == decision.value.runner.value
  {
    if lanes != [] {
      var here := ExplicitLane(policy, lanes[0], target, runners);
      if lanes[0] == "device" || here.Err? {
        LocalDecisionsHoldNothing(policy, lanes[1..], target, runners);
      } else {
        var best := FirstEligible(runners, here.value.runsOn).value;
        var i :| 0 <= i < |runners| && runners[i] == best;
      }
    }
  }

  /** A local lane is found exactly when some listed lane other than the device lane is served. */
  lemma {:induction false} LocalFallbackIsComplete(policy: Policy, lanes: seq<string>, target: Option<string>,
                                                   runners: seq<Runner>)
    ensures FirstLocal(policy, lanes, target, runners).Err? <==>
            forall i | 0 <= i < |lanes| && lanes[i] != "device" :: ExplicitLane(policy, lanes[i], target, runners).Err?
  {
    if lanes != [] {
      LocalFallbackIsComplete(policy, lanes[1..], target, runners);
      assert forall i | 1 <= i < |lanes| :: lanes[i] == lanes[1..][i - 1];
      assert forall i | 0 <= i < |lanes| - 1 :: lanes[1..][i] == lanes[i + 1];
    }
  }

  /** Under a spent ceiling only a lane on the local list with an eligible runner is ever chosen. */
  lemma ASpentCeilingRoutesLocally(policy: Policy, request: Request, runners: seq<Runner>, rows: Rows,
                                   readAt: Instant, wroteAt: Instant)
    requires policy.ceiling.Some?
    requires !Admits(policy.ceiling.value, SpentMinutes(rows, policy.ceiling.value, readAt), request.estimated)
    ensures
      var (decision, after) := Route(policy, request, runners, rows, readAt, wroteAt);
      && after == rows
      && (decision.Ok? ==> decision.value.lane in policy.localPriority && decision.value.runner.Some?)
      && (decision.Err? <==>
            forall i | 0 <= i < |policy.localPriority| && policy.localPriority[i] != "device" ::
              ExplicitLane(policy, policy.localPriority[i], request.target, runners).Err?)
  {
    LocalDecisionsHoldNothing(policy, policy.localPriority, request.target, runners);
    LocalFallbackIsComplete(policy, policy.localPriority, request.target, runners);
  }

  /** The routing as the broker performs it: ask billing, take the hold, choose, give an unused hold back. */
  method Choose(policy: Policy, ledger: MeteredLedger, asked: Request, reading: Option<Reading>, runners: seq<Runner>,
                readAt: Instant, wroteAt: Instant) returns (decision: Routed)
    modifies ledger
    ensures (decision, ledger.rows)
         == Route(policy, Informed(asked, reading), runners, old(ledger.rows), readAt, wroteAt)
  {
    var request := asked;
    if asked.lane == "auto" && asked.visibility.Private? && asked.quota.Unknown? && asked.remaining.None?
       && reading.Some? && !reading.value.quota.Unknown?
    {
      request := asked.(quota := reading.value.quota, remaining := reading.value.remaining);
    }
    var hold := ledger.ReserveMetered(policy.ceiling, request.estimated, readAt, wroteAt);
    if hold.OverBudget? {
      decision := ChooseLocal(policy, request.target, runners);
      return;
    }
    decision := ChooseLane(policy, request, runners);
    if hold.Held? {
      if decision.Ok? && decision.value.lane == HOSTED_LANE {
        decision := Ok(decision.value.(reservation := Some(hold.id)));
      } else {
        ledger.Release(Some(hold.id));
      }
    }
  }

  /** Try each local lane in turn and keep the first that can be served. */
  method ChooseLocal(policy: Policy, target: Option<string>, runners: seq<Runner>) returns (decision: Routed)
    ensures decision == FirstLocal(policy, policy.localPriority, target, runners)
  {
    var k := 0;
    while k < |policy.localPriority|
      invariant k <= |policy.localPriority|
      invariant FirstLocal(policy, policy.localPriority, target, runners)
             == FirstLocal(policy, policy.localPriority[k..], target, runners)
    {
      var lane := policy.localPriority[k];
      if lane != "device" {
        decision := ExplicitLane(policy, lane, target, runners);
        if decision.Ok? {
          return;
        }
      }
      k := k + 1;
    }
    return Err(NoLocalRunner);
  }
}
