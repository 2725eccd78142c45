/**
 * A whole dispatch decision: the policy asked without runners, then with the repository's, then as
 * if its busy runners were idle, and the runner reservation that follows a local choice.
 */
module Dispatching {
  import opened Prelude
  import Metering
  import Routing
  import R = Reservations

  // What one choice of the policy reads: billing, and the clock before and behind a metered hold.
  datatype Sources = Sources(reading: Option<Routing.Reading>, readAt: Metering.Instant, wroteAt: Metering.Instant)

  // What is asked, and what the up to three choices of a decision read, each for itself.
  datatype Asked = Asked(policy: Routing.Policy, request: Routing.Request,
                         first: Sources, second: Sources, third: Sources)

  datatype Outcome = Sent(decision: Routing.Decision, reservation: Option<nat>) | NoLookup | Unavailable

  /** A listed runner as the policy sees it. */
  function Local(runner: R.Runner): Routing.Runner {
    Routing.Runner(runner.name, runner.online, runner.online, runner.busy, runner.labels)
  }

  function Locals(runners: seq<R.Runner>): (locals: seq<Routing.Runner>)
    ensures |locals| == |runners| && forall i | 0 <= i < |runners| :: locals[i] == Local(runners[i])
  {
    seq(|runners|, i requires 0 <= i < |runners| => Local(runners[i]))
  }

  /** The online runners, as if none were busy. */
  function Freed(runners: seq<Routing.Runner>): seq<Routing.Runner> {
    if runners == [] then []
    else if runners[0].online then [runners[0].(busy := false)] + Freed(runners[1..])
    else Freed(runners[1..])
  }

  /** A runner is among the freed ones exactly when it is one of the online ones, with nothing said of being busy. */
  lemma {:induction false} TheFreedAreTheOnline(runners: seq<Routing.Runner>, freed: Routing.Runner)
    ensures freed in Freed(runners) <==>
            exists runner :: runner in runners && runner.online
                             && freed == Routing.Runner(runner.name, runner.healthy, true, false, runner.labels)
  {
    if runners != [] {
      TheFreedAreTheOnline(runners[1..], freed);
      assert runners == [runners[0]] + runners[1..];
    }
  }

  function Routed(asked: Asked, runners: seq<Routing.Runner>, rows: Metering.Rows, sources: Sources)
    : (Routing.Routed, Metering.Rows)
  {
    Routing.Route(asked.policy, Routing.Informed(asked.request, sources.reading), runners, rows,
                  sources.readAt, sources.wroteAt)
  }

  /** With the repository's runners, and when that fails and may be queued, with all online ones idle. */
  function WebhookLane(asked: Asked, runners: seq<Routing.Runner>, allowBusy: bool, rows: Metering.Rows)
    : (Routing.Routed, Metering.Rows)
  {
    var (chosen, after) := Routed(asked, runners, rows, asked.second);
    if chosen.Ok? || !allowBusy then (chosen, after) else Routed(asked, Freed(runners), after, asked.third)
  }

  function LaneOf(decision: Routing.Decision): R.Lane {
    if decision.lane == Metering.HOSTED_LANE then R.Hosted(decision.runsOn)
    else R.Local(decision.runsOn, decision.runner)
  }

  // What a decision leaves of the ledger and of one repository's reservations.
  datatype Decided = Decided(outcome: Outcome, rows: Metering.Rows, book: R.Book)

  /** The whole decision; `runners` is nothing where they cannot be looked up. */
  function Decide(asked: Asked, runners: Option<seq<R.Runner>>, allowBusy: bool, rows: Metering.Rows, book: R.Book,
                  id: nat, now: real, hold: real): Decided
  {
    var (hosted, rows1) := Routed(asked, [], rows, asked.first);
    if hosted.Ok? then Decided(Sent(hosted.value, None), rows1, book)
    else if runners.None? then Decided(NoLookup, rows1, book)
    else
      var (chosen, rows2) := WebhookLane(asked, Locals(runners.value), allowBusy, rows1);
      if chosen.Err? then Decided(Unavailable, rows2, R.Unexpired(book, now))
      else
        var lane := LaneOf(chosen.value);
        match R.Admit(runners.value, lane, R.Unexpired(book, now), allowBusy)
        case Refused => Decided(Unavailable, rows2, R.Unexpired(book, now))
        case Admitted(_, reserves) =>
          Decided(Sent(chosen.value, if reserves then Some(id) else None), rows2,
                  R.Decided(runners.value, book, lane, allowBusy, id, now, hold))
  }

  /** One routing leaves the ledger alone, or adds its own row for the hosted lane. */
  ghost predicate ChargesOne(decision: Routing.Routed, before: Metering.Rows, after: Metering.Rows) {
    if decision.Ok? && decision.value.reservation.Some? then
      && decision.value.lane == Metering.HOSTED_LANE
      && decision.value.reservation.value !in before
      && after.Keys == before.Keys + {decision.value.reservation.value}
      && forall id | id in before :: after[id] == before[id]
    else after == before
  }

  lemma ARoutingChargesOne(asked: Asked, runners: seq<Routing.Runner>, rows: Metering.Rows, sources: Sources)
    ensures var (decision, after) := Routed(asked, runners, rows, sources); ChargesOne(decision, rows, after)
  {
    Routing.RoutingChargesOnlyTheHostedLane(asked.policy, Routing.Informed(asked.request, sources.reading), runners,
                                            rows, sources.readAt, sources.wroteAt);
    hide Routing.Route, Metering.NextId, Metering.Admits, Metering.SpentMinutes;
  }

  lemma AWebhookLaneChargesOne(asked: Asked, runners: seq<Routing.Runner>, allowBusy: bool, rows: Metering.Rows)
    ensures var (decision, after) := WebhookLane(asked, runners, allowBusy, rows); ChargesOne(decision, rows, after)
  {
    ARoutingChargesOne(asked, runners, rows, asked.second);
    ARoutingChargesOne(asked, Freed(runners), rows, asked.third);
    hide Routed;
  }

  /**
   * A decision holds one thing at most: a row of the ledger for the hosted lane, or a runner for a
   * local one, counted free among idle runners with the lane's labels. One that is not sent holds
   * nothing, and a local one that reserves no runner is left to GitHub's queue.
   */
  lemma ADecisionHoldsOneThing(asked: Asked, runners: Option<seq<R.Runner>>, allowBusy: bool, rows: Metering.Rows,
                               book: R.Book, id: nat, now: real, hold: real)
    requires id !in book
    ensures
      var decided := Decide(asked, runners, allowBusy, rows, book, id, now, hold);
      match decided.outcome
      case Sent(decision, None) =>
        && ChargesOne(Ok(decision), rows, decided.rows)
        && (decided.book == book || decided.book == R.Unexpired(book, now))
      case Sent(decision, Some(reserved)) =>
        && decided.rows == rows && decision.reservation.None? && decision.lane != Metering.HOSTED_LANE
        && runners.Some? && decision.runner.Some?
        && R.Available(runners.value, decision.runsOn, R.Unexpired(book, now)) > 0
        && decided.book == R.Unexpired(book, now)[reserved := R.Reservation(now + hold, decision.runsOn)]
      case _ => decided.rows == rows && (decided.book == book || decided.book == R.Unexpired(book, now))
  {
    ARoutingChargesOne(asked, [], rows, asked.first);
    hide Routed, WebhookLane, R.Available;
    var hosted := Routed(asked, [], rows, asked.first).0;
    if hosted.Err? && runners.Some? {
      AWebhookLaneChargesOne(asked, Locals(runners.value), allowBusy, rows);
      var chosen := WebhookLane(asked, Locals(runners.value), allowBusy, rows).0;
      if chosen.Ok? {
        AReservationHasRoom(runners.value, LaneOf(chosen.value), R.Unexpired(book, now), allowBusy);
      }
    }
  }

  lemma AReservationHasRoom(runners: seq<R.Runner>, lane: R.Lane, book: R.Book, allowBusy: bool)
    ensures
      var admission := R.Admit(runners, lane, book, allowBusy);
      && (lane.Hosted? ==> admission.Admitted? && !admission.reserves)
      && (admission.Admitted? && admission.reserves ==>
            lane.Local? && lane.candidate.Some? && R.Available(runners, lane.required, book) > 0)
  {
  }

  /** Whatever is decided, the repository's reservations keep a runner each. */
  lemma ADecisionKeepsEverySeat(asked: Asked, runners: seq<R.Runner>, allowBusy: bool, rows: Metering.Rows,
                                book: R.Book, id: nat, now: real, hold: real)
    requires R.Matchable(runners, book)
    ensures R.Matchable(runners, Decide(asked, Some(runners), allowBusy, rows, book, id, now, hold).book)
  {
    hide R.Matchable, R.Admit, R.Decided, Routed, WebhookLane;
    R.FewerReservationsStaySeated(runners, book, R.Unexpired(book, now));
    var chosen := WebhookLane(asked, Locals(runners), allowBusy, Routed(asked, [], rows, asked.first).1).0;
    if chosen.Ok? {
      R.ADecisionKeepsSeats(runners, book, LaneOf(chosen.value), allowBusy, id, now, hold);
    }
  }

  // ---- the decision as it runs ----

  lemma ExpiringTwiceIsExpiringOnce(runners: seq<R.Runner>, book: R.Book, lane: R.Lane, allowBusy: bool, id: nat,
                                    now: real, hold: real)
    ensures R.Unexpired(R.Unexpired(book, now), now) == R.Unexpired(book, now)
    ensures R.Decided(runners, R.Unexpired(book, now), lane, allowBusy, id, now, hold)
         == R.Decided(runners, book, lane, allowBusy, id, now, hold)
    ensures R.Admit(runners, lane, R.Unexpired(book, now), allowBusy).Refused? ==>
              R.Decided(runners, book, lane, allowBusy, id, now, hold) == R.Unexpired(book, now)
  {
    assert R.Unexpired(R.Unexpired(book, now), now) == R.Unexpired(book, now);
    hide R.Admit;
  }

  method ChooseWebhookLane(asked: Asked, ledger: Metering.MeteredLedger, runners: seq<Routing.Runner>, allowBusy: bool)
    returns (decision: Routing.Routed)
    modifies ledger
    ensures (decision, ledger.rows) == WebhookLane(asked, runners, allowBusy, old(ledger.rows))
  {
    decision := Routing.Choose(asked.policy, ledger, asked.request, asked.second.reading, runners,
                               asked.second.readAt, asked.second.wroteAt);
    if decision.Err? && allowBusy {
      decision := Routing.Choose(asked.policy, ledger, asked.request, asked.third.reading, Freed(runners),
                                 asked.third.readAt, asked.third.wroteAt);
    }
  }

  method DispatchDecision(asked: Asked, ledger: Metering.MeteredLedger, capacity: R.Capacity, repository: string,
                          runners: Option<seq<R.Runner>>, allowBusy: bool, id: nat, now: real, hold: real)
    returns (outcome: Outcome)
    modifies ledger, capacity
    ensures
      var book := R.BookOf(old(capacity.reservations), repository);
      var decided := Decide(asked, runners, allowBusy, old(ledger.rows), book, id, now, hold);
      && outcome == decided.outcome && ledger.rows == decided.rows
      && R.BookOf(capacity.reservations, repository) == decided.book
    ensures forall other | other != repository ::
              R.BookOf(capacity.reservations, other) == R.BookOf(old(capacity.reservations), other)
  {
    hide Routing.Route, R.Admit, R.Decided, R.Unexpired;
    var decision := Routing.Choose(asked.policy, ledger, asked.request, asked.first.reading, [],
                                   asked.first.readAt, asked.first.wroteAt);
    if decision.Ok? {
      return Sent(decision.value, None);
    }
    if runners.None? {
      return NoLookup;
    }
    ghost var book := R.BookOf(capacity.reservations, repository);
    capacity.ExpireReservations(repository, now);
    decision := ChooseWebhookLane(asked, ledger, Locals(runners.value), allowBusy);
    if decision.Err? {
      return Unavailable;
    }
    var lane := LaneOf(decision.value);
    ExpiringTwiceIsExpiringOnce(runners.value, book, lane, allowBusy, id, now, hold);
    ghost var expired := capacity.reservations;
    var admission, reservation :=
      capacity.DispatchDecision(repository, runners.value, lane, allowBusy, id, now, hold);
    assert R.BookOf(capacity.reservations, repository)
        == R.Decided(runners.value, R.BookOf(expired, repository), lane, allowBusy, id, now, hold);
    return if admission.Refused? then Unavailable else Sent(decision.value, reservation);
  }

  // ---- waiting for a busy runner ----

  /** A runner that would serve the labels if it were idle. */
  ghost predicate WouldServe(runner: Routing.Runner, required: set<string>) {
    runner.healthy && runner.online && forall l | l in required :: l in runner.labels
  }

  /**
   * Without a ceiling, a request that names a local lane is given it exactly when a runner may take it
   * now, or waiting is allowed and a runner would serve it if it were idle.
   */
  lemma ABusyRunnerIsWaitedFor(asked: Asked, runners: seq<Routing.Runner>, allowBusy: bool, rows: Metering.Rows)
    requires asked.policy.ceiling.None? && asked.request.lane !in {"auto", "hosted", "device"}
    requires asked.request.lane in asked.policy.laneLabels
    ensures
      var required := asked.policy.laneLabels[asked.request.lane];
      WebhookLane(asked, runners, allowBusy, rows).0.Ok? <==>
        exists i :: 0 <= i < |runners| && WouldServe(runners[i], required) && (allowBusy || !runners[i].busy)
  {
    var required := asked.policy.laneLabels[asked.request.lane];
    ANamedLaneNeedsARunner(asked, runners, rows, asked.second);
    ANamedLaneNeedsARunner(asked, Freed(runners), rows, asked.third);
    TheFreedServe(runners, required);
    TheEligibleAreIdle(runners, required);
    hide Routed, Freed, WouldServe, Routing.EligibleRunner;
  }

  lemma TheEligibleAreIdle(runners: seq<Routing.Runner>, required: set<string>)
    ensures (exists i :: 0 <= i < |runners| && Routing.EligibleRunner(runners[i], required))
       <==> (exists i :: 0 <= i < |runners| && WouldServe(runners[i], required) && !runners[i].busy)
  {
    if i :| 0 <= i < |runners| && Routing.EligibleRunner(runners[i], required) {
      assert WouldServe(runners[i], required);
    }
    if i :| 0 <= i < |runners| && WouldServe(runners[i], required) && !runners[i].busy {
      assert Routing.EligibleRunner(runners[i], required);
    }
  }

  lemma {:induction false} TheFreedServe(runners: seq<Routing.Runner>, required: set<string>)
    ensures (exists k :: 0 <= k < |Freed(runners)| && Routing.EligibleRunner(Freed(runners)[k], required))
       <==> (exists i :: 0 <= i < |runners| && WouldServe(runners[i], required))
  {
    if runners != [] {
      var rest, freed := runners[1..], Freed(runners);
      TheFreedServe(rest, required);
      if k :| 0 <= k < |Freed(rest)| && Routing.EligibleRunner(Freed(rest)[k], required) {
        assert freed[|freed| - |Freed(rest)| + k] == Freed(rest)[k];
      }
      if i :| 0 <= i < |rest| && WouldServe(rest[i], required) { assert runners[i + 1] == rest[i]; }
      if WouldServe(runners[0], required) { assert Routing.EligibleRunner(freed[0], required); }
      if k :| 0 <= k < |freed| && Routing.EligibleRunner(freed[k], required) {
        if runners[0].online && k == 0 {
          assert WouldServe(runners[0], required);
        } else {
          var at := k - (|freed| - |Freed(rest)|);
          assert freed[k] == Freed(rest)[at];
        }
      }
      if i :| 0 <= i < |runners| && WouldServe(runners[i], required) {
        if i > 0 { assert rest[i - 1] == runners[i]; }
      }
    }
  }

  lemma ANamedLaneNeedsARunner(asked: Asked, runners: seq<Routing.Runner>, rows: Metering.Rows, sources: Sources)
    requires asked.policy.ceiling.None? && asked.request.lane !in {"auto", "hosted", "device"}
    requires asked.request.lane in asked.policy.laneLabels
    ensures
      var required := asked.policy.laneLabels[asked.request.lane];
      && (Routed(asked, runners, rows, sources).0.Ok? <==>
            exists i :: 0 <= i < |runners| && Routing.EligibleRunner(runners[i], required))
      && Routed(asked, runners, rows, sources).1 == rows
  {
    var required := asked.policy.laneLabels[asked.request.lane];
    assert required + {} == required;
    var best := Routing.FirstEligible(runners, required);
    if best.Some? { var i :| 0 <= i < |runners| && runners[i] == best.value; }
  }
}
