/** When an automatic request goes to the hosted lane, and what a named lane and the local list come to. */
module RoutingRules {
  import opened Prelude
  import opened Metering
  import opened Routing

  /** Whether enough minutes are stated to be left, once the request and the reserve are taken off. */
  ghost predicate EnoughIsLeft(policy: Policy, request: Request) {
    && request.remaining.Some?
    && policy.minimumRemaining + policy.reserveMinutes + request.estimated <= request.remaining.value
  }

  /** What lets an automatic request for a repository that is not public use the hosted lane. */
  ghost predicate HostedIsAllowed(policy: Policy, request: Request) {
    || (request.quota in {Quota.Available, PaidAllowed}
        && (request.remaining == None || EnoughIsLeft(policy, request)))
    || (request.quota == Quota.Unknown && policy.unknownMeansHosted)
    || (request.quota == Exhausted && policy.paidOverageAllowed)
    || (request.quota == Other && EnoughIsLeft(policy, request))
  }

  /** The ceiling's refusal: the month's assumed minutes and the request's would reach it. */
  ghost predicate CeilingRefuses(policy: Policy, request: Request, rows: Rows, readAt: Instant) {
    policy.ceiling.Some?
    && var ceiling := policy.ceiling.value;
       !Admits(ceiling, SpentMinutes(rows, ceiling, readAt), request.estimated)
  }

  /**
   * An automatic request the ceiling does not refuse goes to the hosted lane if and only if its
   * repository is public or the hosted lane is allowed; otherwise the local list serves it or nothing.
   */
  lemma AnAutomaticRequestGoesHostedExactlyWhen(policy: Policy, request: Request, runners: seq<Runner>, rows: Rows,
                                                readAt: Instant, wroteAt: Instant)
    requires request.lane == "auto" && !CeilingRefuses(policy, request, rows, readAt)
    ensures
      var decision := Route(policy, request, runners, rows, readAt, wroteAt).0;
      if request.visibility.Public? || HostedIsAllowed(policy, request) then
        decision.Ok? && decision.value.lane == "hosted" && decision.value.runsOn == policy.hostedRunner
        && decision.value.runner.None?
      else Served(policy, policy.localPriority, request.target, runners, decision)
  {
    var decision := Route(policy, request, runners, rows, readAt, wroteAt).0;
    TheLocalListServes(policy, policy.localPriority, request.target, runners);
    AHoldServesTheSame(policy, policy.localPriority, request.target, runners,
                       FirstLocal(policy, policy.localPriority, request.target, runners), decision);
    hide FirstLocal, Served, SpentMinutes, Admits, NextId;
  }

  /** A request that names the hosted lane gets it, and one the ceiling refuses is served by the local list. */
  lemma ANamedLaneAndASpentCeiling(policy: Policy, request: Request, runners: seq<Runner>, rows: Rows,
                                   readAt: Instant, wroteAt: Instant)
    ensures
      var decision := Route(policy, request, runners, rows, readAt, wroteAt).0;
      && (CeilingRefuses(policy, request, rows, readAt) ==>
            Served(policy, policy.localPriority, request.target, runners, decision))
      && (!CeilingRefuses(policy, request, rows, readAt) && request.lane == "hosted" ==>
            decision.Ok? && decision.value.lane == "hosted" && decision.value.runsOn == policy.hostedRunner)
      && (!CeilingRefuses(policy, request, rows, readAt) && request.lane != "hosted" && request.lane != "auto" ==>
            AsNamed(policy, request.lane, request.target, runners, decision))
  {
    var decision := Route(policy, request, runners, rows, readAt, wroteAt).0;
    var lane := ExplicitLane(policy, request.lane, request.target, runners);
    TheLocalListServes(policy, policy.localPriority, request.target, runners);
    ANamedLaneIsServed(policy, request.lane, request.target, runners);
    AHoldNamesTheSame(policy, request.lane, request.target, runners, lane, decision);
    hide FirstLocal, Served, AsNamed, ExplicitLane, HostedQuotaAvailable, SpentMinutes, Admits, NextId;
  }

  /**
   * What billing says counts as if it had been stated, exactly for an automatic request for a private
   * repository that states neither quota nor minutes, and when it says more than that it is unknown.
   */
  lemma BillingCountsExactlyWhereNothingIsStated(request: Request, reading: Option<Reading>)
    ensures
      var unstated := request.lane == "auto" && request.visibility == Private
                      && request.quota == Quota.Unknown && request.remaining == None;
      Informed(request, reading)
      == if unstated && reading.Some? && reading.value.quota != Quota.Unknown
         then Request("auto", Private, reading.value.quota, reading.value.remaining, request.estimated, request.target)
         else request
  {
  }

  // ---- named lanes ----

  /** A runner that may take a job now. */
  ghost predicate MayTake(runner: Runner, required: set<string>) {
    runner.healthy && runner.online && !runner.busy && forall l | l in required :: l in runner.labels
  }

  /** The labels a lane runs on: its own, and for the device lane the device named. */
  ghost predicate RunsOn(policy: Policy, lane: string, target: Option<string>, required: set<string>) {
    && lane in policy.laneLabels.Keys
    && forall l :: l in required <==> l in policy.laneLabels[lane] || (lane == "device" && target == Some(l))
  }

  /** The first-named runner that may take the lane's labels. */
  ghost predicate FirstNamed(runners: seq<Runner>, required: set<string>, name: string) {
    && (exists i :: 0 <= i < |runners| && MayTake(runners[i], required) && runners[i].name == name)
    && forall i | 0 <= i < |runners| && MayTake(runners[i], required) ::
         runners[i].name == name || ComesBefore(name, runners[i].name)
  }

  /**
   * How a named lane is served, whatever hold the decision carries: a device lane needs a listed
   * device, and every lane a runner that may take its labels.
   */
  ghost predicate AsNamed(policy: Policy, lane: string, target: Option<string>, runners: seq<Runner>, decision: Routed)
  {
    match decision
    case Ok(chosen) =>
      && chosen.lane == lane && RunsOn(policy, lane, target, chosen.runsOn)
      && (lane == "device" ==> target.Some? && |target.value| > 0 && target.value in policy.devices)
      && chosen.runner.Some? && FirstNamed(runners, chosen.runsOn, chosen.runner.value)
    case Err(UnknownLane) => lane !in policy.laneLabels.Keys
    case Err(NoTarget) => lane in policy.laneLabels.Keys && lane == "device" && (target.None? || |target.value| == 0)
    case Err(UnknownTarget) =>
      lane in policy.laneLabels.Keys && lane == "device" && target.Some? && |target.value| > 0
      && target.value !in policy.devices
    case Err(NoRunner) =>
      && (lane == "device" ==> target.Some? && target.value in policy.devices)
      && exists required :: RunsOn(policy, lane, target, required)
                            && forall i | 0 <= i < |runners| :: !MayTake(runners[i], required)
    case Err(NoLocalRunner) => false
  }

  lemma EligibleMayTake(runner: Runner, required: set<string>)
    ensures EligibleRunner(runner, required) <==> MayTake(runner, required)
  {
  }

  lemma TheFirstNamedIsChosen(runners: seq<Runner>, required: set<string>)
    ensures
      match FirstEligible(runners, required)
      case Some(best) => FirstNamed(runners, required, best.name)
      case None => forall i | 0 <= i < |runners| :: !MayTake(runners[i], required)
  {
    forall i | 0 <= i < |runners| { EligibleMayTake(runners[i], required); }
    var best := FirstEligible(runners, required);
    if best.Some? {
      var k :| 0 <= k < |runners| && runners[k] == best.value;
      EligibleMayTake(best.value, required);
      forall i | 0 <= i < |runners| && MayTake(runners[i], required)
        ensures runners[i].name == best.value.name || ComesBefore(best.value.name, runners[i].name)
      {
        TheFirstNameIsChosen(runners, required, i);
        TextsAreOrdered(runners[i].name, best.value.name);
        TextOrderIsByTheFirstDifference(best.value.name, runners[i].name);
      }
    }
  }

  lemma ANamedLaneIsServed(policy: Policy, lane: string, target: Option<string>, runners: seq<Runner>)
    ensures AsNamed(policy, lane, target, runners, ExplicitLane(policy, lane, target, runners))
  {
    hide FirstNamed, FirstEligible;
    if lane in policy.laneLabels
       && (lane == "device" ==> target.Some? && target.value != "" && target.value in policy.devices)
    {
      var required := policy.laneLabels[lane] + if lane == "device" then {target.value} else {};
      TheFirstNamedIsChosen(runners, required);
      assert RunsOn(policy, lane, target, required);
      hide RunsOn;
    }
  }

  // The same decision, whatever hold it carries.
  ghost predicate SameBut(a: Routed, b: Routed) {
    a == b || (a.Ok? && b.Ok? && a.value.(reservation := None) == b.value.(reservation := None))
  }

  lemma AHoldNamesTheSame(policy: Policy, lane: string, target: Option<string>, runners: seq<Runner>, a: Routed,
                          b: Routed)
    ensures AsNamed(policy, lane, target, runners, a) && SameBut(a, b) ==> AsNamed(policy, lane, target, runners, b)
  {
    hide FirstNamed, RunsOn;
  }

  lemma AHoldServesTheSame(policy: Policy, lanes: seq<string>, target: Option<string>, runners: seq<Runner>, a: Routed,
                           b: Routed)
    ensures Served(policy, lanes, target, runners, a) && SameBut(a, b) ==> Served(policy, lanes, target, runners, b)
  {
    forall lane { AHoldNamesTheSame(policy, lane, target, runners, a, b); }
    hide AsNamed, CannotBeServed;
  }

  // ---- the local list ----

  /** The first lane of a list, past the device lane, that can be served as if it were named; or none can. */
  ghost predicate Served(policy: Policy, lanes: seq<string>, target: Option<string>, runners: seq<Runner>,
                         decision: Routed)
  {
    match decision
    case Ok(chosen) =>
      exists i ::
        && 0 <= i < |lanes| && lanes[i] != "device" && AsNamed(policy, lanes[i], target, runners, decision)
        && forall j | 0 <= j < i && lanes[j] != "device" :: CannotBeServed(policy, lanes[j], target, runners)
    case Err(why) =>
      why == NoLocalRunner
      && forall j | 0 <= j < |lanes| && lanes[j] != "device" :: CannotBeServed(policy, lanes[j], target, runners)
  }

  ghost predicate CannotBeServed(policy: Policy, lane: string, target: Option<string>, runners: seq<Runner>) {
    exists why :: AsNamed(policy, lane, target, runners, Err(why))
  }

  lemma {:induction false} TheLocalListServes(policy: Policy, lanes: seq<string>, target: Option<string>,
                                              runners: seq<Runner>)
    ensures Served(policy, lanes, target, runners, FirstLocal(policy, lanes, target, runners))
  {
    if lanes != [] {
      var here, decision := ExplicitLane(policy, lanes[0], target, runners), FirstLocal(policy, lanes, target, runners);
      ANamedLaneIsServed(policy, lanes[0], target, runners);
      hide AsNamed, ExplicitLane;
      if lanes[0] == "device" || here.Err? {
        TheLocalListServes(policy, lanes[1..], target, runners);
        if here.Err? { assert AsNamed(policy, lanes[0], target, runners, Err(here.error)); }
        assert lanes[0] != "device" ==> CannotBeServed(policy, lanes[0], target, runners);
        hide CannotBeServed;
        ServedBehind(policy, lanes, target, runners, decision);
      } else {
        assert AsNamed(policy, lanes[0], target, runners, decision);
      }
    }
  }

  lemma ServedBehind(policy: Policy, lanes: seq<string>, target: Option<string>, runners: seq<Runner>, decision: Routed)
    requires lanes != [] && Served(policy, lanes[1..], target, runners, decision)
    requires lanes[0] != "device" ==> CannotBeServed(policy, lanes[0], target, runners)
    ensures Served(policy, lanes, target, runners, decision)
  {
    hide AsNamed, CannotBeServed;
    assert forall j | 1 <= j < |lanes| :: lanes[j] == lanes[1..][j - 1];
    if decision.Ok? {
      var i :| 0 <= i < |lanes[1..]| && lanes[1..][i] != "device"
               && AsNamed(policy, lanes[1..][i], target, runners, decision)
               && forall j | 0 <= j < i && lanes[1..][j] != "device" ::
                    CannotBeServed(policy, lanes[1..][j], target, runners);
      assert AsNamed(policy, lanes[i + 1], target, runners, decision);
    }
  }
}
