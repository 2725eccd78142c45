/** What becomes of one replayed delivery: its state, its row in the ledger, and whether a device is given it. */
module ReplayEnds {
  import opened Prelude
  import opened Deliveries
  import opened DeliveryStore
  import opened MeteredMonths
  import Metering

  /** A refusal for good, or a call that never arrived: every code but those of the server and of a refusal for now. */
  ghost predicate RefusedForGood(answer: Answer) {
    answer.DispatchError?
    && (answer.code.None? || (answer.code.value < 500 && answer.code.value != 403 && answer.code.value != 429))
  }

  /**
   * A delivery the policy no longer permits or whose workflow file is gone is rejected unsent, one whose
   * file cannot be looked up or that the ceiling refuses waits, and any other is sent and ends as its
   * answer says, or stays as an attempt where that cannot be recorded. A device is given exactly one
   * that was rejected and may have it.
   */
  lemma AReplayEndsExactlyAs(repository: string, d: Delivery, world: Replay, ledger: Metering.Rows,
                             ceiling: Option<Metering.Ceiling>, now: Metering.Instant)
    ensures
      var end := Replayed(repository, d, world, ledger, ceiling, now);
      var unsent := !world.permitted || world.adapter == Missing;
      var full := d.lane == "hosted" && ceiling.Some?
                  && !Metering.Admits(ceiling.value, Metering.SpentMinutes(ledger, ceiling.value, now), 0.0);
      var waits := !unsent && (world.adapter == DeliveryStore.Unknown || full);
      && (unsent ==> end.state == Rejected && end.ledger == ledger)
      && (waits ==> end.state == Ready && end.ledger == ledger && !end.handed)
      && (!unsent && !waits && !world.recorded ==> end.state == Attempting && !end.handed)
      && (!unsent && !waits && world.recorded ==>
            && (end.state == Accepted <==> world.answer == Started)
            && (end.state == Rejected <==> RefusedForGood(world.answer))
            && end.state in {Accepted, Rejected, Uncertain})
      && (end.handed <==> end.state == Rejected && world.device)
  {
    hide Spend, Metering.SpentMinutes, Metering.Admits, Metering.NextId;
  }

  /**
   * The row a charged replay adds is a hosted dispatch of that instant, named after the delivery when a
   * run was started and unnamed when one only may have been.
   */
  lemma AChargedReplayIsNamedWhenItStarted(repository: string, d: Delivery, world: Replay, ledger: Metering.Rows,
                                           ceiling: Option<Metering.Ceiling>, now: Metering.Instant)
    requires world.permitted && world.adapter == There && d.lane == "hosted" && ceiling.Some?
    requires Metering.Admits(ceiling.value, Metering.SpentMinutes(ledger, ceiling.value, now), 0.0)
    requires !RefusedForGood(world.answer)
    ensures
      var after := Replayed(repository, d, world, ledger, ceiling, now).ledger;
      exists id :: id !in ledger && after.Keys == ledger.Keys + {id}
                   && after[id] == if world.answer == Started
                                   then Metering.Dispatch(repository, "hosted", d.workflow, d.ref, now)
                                   else Metering.Dispatch("-", "hosted", "", "", now)
  {
    AReplayChargesExactlyWhatMayRun(repository, d, world, ledger, ceiling, now);
    var id := Metering.NextId(ledger);
    hide Metering.SpentMinutes, Metering.Admits, Metering.NextId;
    var held := Metering.WithHold(ledger, now);
    assert held[id] == Metering.Dispatch("-", "hosted", "", "", now);
    var after := Replayed(repository, d, world, ledger, ceiling, now).ledger;
    assert after == Spend(held, Some(id), d, repository, world.answer);
  }
}
