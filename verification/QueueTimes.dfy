/**
 * When runs are handed out and how long they are held: what a claim may pick, the wait a lost run is
 * put on, the lease a claim gives, and the presence a heartbeat leaves.
 */
module QueueTimes {
  import opened Prelude
  import opened JobRecord
  import opened Leases
  import opened Scheduling
  import opened VerdictLedger
  import opened QueueGuarantees

  // ---- what a claim picks ----

  /** A run that is waiting, due, and asks for no label the device does not offer. */
  ghost predicate Claimable(row: Job, offered: set<string>, now: real) {
    && row.status == Pending
    && (row.availableAt.None? || now >= row.availableAt.value)
    && forall l | l in row.labels :: l in offered
  }

  ghost predicate UnderCap(s: System, repository: string, cap: Option<nat>) {
    cap.None?
    || |set id | id in s.cells && s.cells[id].row.status == Running && s.cells[id].row.repository == repository|
       < cap.value
  }

  /** A claim with a lease hands out a run that is due, asks for what is offered, and is under the cap, if any is. */
  lemma AClaimPicksExactlyWhatMayRun(s: System, e: Event)
    requires e.Claim? && e.lease > 0.0
    ensures
      match Picked(s, e)
      case Some(id) =>
        && id in s.cells && Claimable(s.cells[id].row, e.offered, e.now)
        && UnderCap(s, s.cells[id].row.repository, e.cap)
      case None =>
        forall id | id in s.cells && Claimable(s.cells[id].row, e.offered, e.now) ::
          !UnderCap(s, s.cells[id].row.repository, e.cap)
  {
    forall id | id in s.cells
      ensures e.cap != Some(0) ==>
                (Eligible(Rows(s), id, e.offered, e.now, e.cap)
                 <==> Claimable(s.cells[id].row, e.offered, e.now) && UnderCap(s, s.cells[id].row.repository, e.cap))
    {
      var repository := s.cells[id].row.repository;
      assert RunningIn(Rows(s), repository)
          == set other | other in s.cells && s.cells[other].row.status == Running
                         && s.cells[other].row.repository == repository;
    }
    hide RunningIn;
  }

  /** A run just enqueued may be claimed at once by any device that offers its labels, at any time and attempt-free. */
  lemma AnEnqueuedRunMayBeClaimed(s: System, e: Event, offered: set<string>, now: real)
    requires e.Enqueue? && Inserts(s, e)
    ensures
      var t := Next(s, e);
      && t.cells.Keys == s.cells.Keys + {e.id} && (forall id | id in s.cells :: t.cells[id] == s.cells[id])
      && var row := t.cells[e.id].row;
         && (Claimable(row, offered, now) <==> forall l | l in e.labels :: l in offered)
         && row.repository == e.repository && row.createdAt == e.now && row.delivery == e.delivery && row.attempts == 0
         && t.cells[e.id].hand == [] && t.cells[e.id].wall == []
  {
  }

  // ---- the wait after a loss ----

  /** The wait doubles with each attempt up to its cap. */
  lemma TheWaitDoubles(attempts: nat)
    requires attempts >= 1
    ensures BackoffSeconds(1) == 30.0
    ensures BackoffSeconds(attempts + 1)
         == if 2.0 * BackoffSeconds(attempts) <= 300.0 then 2.0 * BackoffSeconds(attempts) else 300.0
  {
    DoublingGrows(attempts - 1, 0);
  }

  /** A run that a report or a reclaim puts back in the queue is due thirty seconds later, then sixty. */
  lemma ALostRunIsDueAfterItsWait(s: System, e: Event, id: JobId)
    requires Inv(s) && id in s.cells && Decides(s.cells[id], id, e, s.agents)
    ensures
      var t := Next(s, e);
      && id in t.cells && IsDue(s.cells[id].row, t.cells[id].row, e.now)
      && (t.cells[id].row.status in {Pending, Dead} <==> e.Reclaim? || e.error != "")
  {
    assert CellInv(s.cells[id]);
    assert id in Next(s, e).cells && Next(s, e).cells[id] == CellAfter(s.cells[id], id, e, s.agents, None);
    hide Inv, Next, Picked, Decides;
    if e.Report? {
      AReportedLossIsDue(s.cells[id], id, e, s.agents);
    } else {
      AReclaimedRunIsDue(s.cells[id], id, e, s.agents);
    }
  }

  ghost predicate IsDue(before: Job, after: Job, now: real) {
    && after.attempts == before.attempts
    && (after.status == Pending ==>
          && after.attempts in {1, 2} && after.labels == before.labels
          && after.availableAt == Some(now + if after.attempts == 1 then 30.0 else 60.0))
    && (after.status == Dead ==> after.attempts == 3)
  }

  lemma AReportedLossIsDue(c: Cell, id: JobId, e: Event, agents: Agents)
    requires CellInv(c) && e.Report? && Decides(c, id, e, agents)
    ensures
      var after := CellAfter(c, id, e, agents, None).row;
      IsDue(c.row, after, e.now) && (after.status in {Pending, Dead} <==> e.error != "")
  {
    TheWaitDoubles(1);
    hide Accounted, OneCustodian, CopiesAreLatest, InOrder, Spent, BackoffSeconds, ReportVerdict, NamesTheRow;
  }

  lemma AReclaimedRunIsDue(c: Cell, id: JobId, e: Event, agents: Agents)
    requires CellInv(c) && e.Reclaim? && Decides(c, id, e, agents)
    ensures
      var after := CellAfter(c, id, e, agents, None).row;
      IsDue(c.row, after, e.now) && after.status in {Pending, Dead}
  {
    TheWaitDoubles(1);
    hide Accounted, OneCustodian, CopiesAreLatest, InOrder, Spent, BackoffSeconds, LostDescription, NamesTheRow;
  }

  // The stage a waiting run is in, and when and for whom it is due.
  ghost predicate SameWait(before: Job, after: Job) {
    && before.status == after.status && before.attempts == after.attempts && before.labels == after.labels
    && before.availableAt == after.availableAt && before.repository == after.repository
  }

  lemma AWaitingRunIsLeft(s: System, e: Event, id: JobId)
    requires Inv(s) && id in s.cells && s.cells[id].row.status == Pending && Picked(s, e) != Some(id)
    ensures id in Next(s, e).cells && SameWait(s.cells[id].row, Next(s, e).cells[id].row)
  {
    var c := s.cells[id];
    if e.Claim? {
      hide Picked;
    } else if !e.Enqueue? && !e.Heartbeat? {
      assert CellInv(c);
      assert Next(s, e).cells[id] == CellAfter(c, id, e, s.agents, None);
      hide Inv, Next, Picked, CellInv;
      AWaitingCellIsLeft(c, id, e, s.agents);
    }
  }

  lemma AWaitingCellIsLeft(c: Cell, id: JobId, e: Event, agents: Agents)
    requires c.row.status == Pending && !e.Claim?
    ensures SameWait(c.row, CellAfter(c, id, e, agents, None).row)
  {
    hide BackoffSeconds, Spent, ReportVerdict, LostDescription;
  }

  lemma WaitingThenDue(row: Job, due: real)
    requires row.status == Pending && row.availableAt == Some(due)
    ensures forall offered, now: real | now >= due ::
              Claimable(row, offered, now) <==> forall l | l in row.labels :: l in offered
  {
  }

  /**
   * Nobody is handed a waiting run before it is due: through any events whose claims are made earlier
   * it waits unchanged, and from that time on it may be claimed by any device that offers its labels.
   */
  lemma {:induction false} ARunWaitsUntilItIsDue(s: System, events: seq<Event>, id: JobId, due: real)
    requires Inv(s) && id in s.cells && s.cells[id].row.status == Pending && s.cells[id].row.availableAt == Some(due)
    requires forall i | 0 <= i < |events| && events[i].Claim? :: events[i].now < due
    ensures ClaimsOf(s, events, id) == 0
    ensures
      var t := Run(s, events);
      && id in t.cells && SameWait(s.cells[id].row, t.cells[id].row)
      && forall offered, now: real | now >= due ::
           Claimable(t.cells[id].row, offered, now) <==> forall l | l in t.cells[id].row.labels :: l in offered
    decreases |events|
  {
    WaitingThenDue(s.cells[id].row, due);
    if events != [] {
      var e := events[0];
      if e.Claim? && e.lease > 0.0 { AClaimPicksExactlyWhatMayRun(s, e); }
      assert Picked(s, e) != Some(id);
      AWaitingRunIsLeft(s, e, id);
      StepKeeps(s, e);
      hide Inv, Next, Picked, Claimable, UnderCap;
      ARunWaitsUntilItIsDue(Next(s, e), events[1..], id, due);
    }
  }

  /** A run a reclaim takes back keeps why, in these words, and so does what the commit is told of it. */
  lemma AReclaimedRunSaysWhy(s: System, now: real, id: JobId)
    requires id in s.cells && Lapsed(s.cells[id].row, s.agents, now)
    ensures
      var t, why := Next(s, Reclaim(now)), "the device lease expired before the run finished";
      && id in t.cells && t.cells[id].row.lastError == Some(why) && t.cells[id].latest.Some?
      && t.cells[id].latest.value.text
         == if s.cells[id].row.attempts >= 3 then LostForGood(s.cells[id].row.attempts, why)
            else LostRetrying(s.cells[id].row.attempts + 1, why)
  {
    hide BackoffSeconds, Spent;
    assert |"the device lease expired before the run finished"| <= 200;
  }

  // ---- the lease a claim gives ----

  /** A run is held by the device it was handed to, for the lease it asked for, and by nobody else. */
  ghost predicate HeldUntil(row: Job, device: Device, until: real) {
    row.status == Running && row.device == Some(device) && row.leaseExpires == Some(until)
  }

  /** Until its lease runs out the device may act on its run; from a minute later nobody may, whoever is present. */
  lemma ALeaseIsWorthItsTime(row: Job, agents: Agents, device: Device, until: real, now: real)
    requires HeldUntil(row, device, until)
    ensures now <= until ==> HoldsLease(row, agents, device, now) && !Lapsed(row, agents, now)
    ensures until + 60.0 < now ==> !HoldsLease(row, agents, device, now) && Lapsed(row, agents, now)
    ensures until < now <= until + 60.0 ==>
              (HoldsLease(row, agents, device, now) <==> device in agents && agents[device] >= now - 60.0)
  {
  }

  lemma AClaimGivesItsLease(s: System, e: Event, id: JobId)
    requires e.Claim? && Picked(s, e) == Some(id) && id in s.cells
    ensures id in Next(s, e).cells && HeldUntil(Next(s, e).cells[id].row, e.device, e.now + e.lease)
    ensures Next(s, e).cells[id].row.attempts == s.cells[id].row.attempts + 1
  {
    hide Picked;
  }

  /** A renewal of the device that may still act on the run gives it the lease from now; any other changes nothing. */
  lemma ARenewalGivesItsLease(s: System, e: Event, id: JobId)
    requires e.RenewLease? && id in s.cells
    ensures
      var t, row := Next(s, e), s.cells[id].row;
      && id in t.cells
      && t.cells[id]
         == if e.id == id && e.lease > 0.0 && HoldsLease(row, s.agents, e.device, e.now)
            then s.cells[id].(row := row.(leaseExpires := Some(e.now + e.lease))) else s.cells[id]
  {
    hide Spent;
  }

  /** A claim without a lease, or where no repository may run anything, hands out nothing. */
  lemma AnEmptyClaimHandsOutNothing(s: System, e: Event)
    requires e.Claim? && (e.lease <= 0.0 || e.cap == Some(0))
    ensures Next(s, e).cells == s.cells
  {
  }

  /** Events in which the device says nothing of the run and no reclaim comes after the lease. */
  ghost predicate Silent(events: seq<Event>, id: JobId, device: Device, until: real) {
    forall i | 0 <= i < |events| ::
      && ((events[i].Report? || events[i].RenewLease?) && events[i].id == id ==> events[i].device != device)
      && (events[i].Reclaim? ==> events[i].now <= until)
  }

  lemma AHeldRunIsLeft(s: System, e: Event, id: JobId, device: Device, until: real)
    requires Inv(s) && id in s.cells && HeldUntil(s.cells[id].row, device, until) && Silent([e], id, device, until)
    ensures id in Next(s, e).cells && HeldUntil(Next(s, e).cells[id].row, device, until)
  {
    assert e == [e][0];
    if e.Claim? && e.lease > 0.0 { AClaimPicksExactlyWhatMayRun(s, e); }
    assert Picked(s, e) != Some(id);
    if e.Reclaim? { ALeaseIsWorthItsTime(s.cells[id].row, s.agents, device, until, e.now); }
    hide Picked, BackoffSeconds, Lapsed, Spent;
  }

  /** Nobody takes a run from a silent device before its lease has run out, whatever else happens. */
  lemma {:induction false} ALeaseIsNotTakenEarly(s: System, events: seq<Event>, id: JobId, device: Device, until: real)
    requires Inv(s) && id in s.cells && HeldUntil(s.cells[id].row, device, until) && Silent(events, id, device, until)
    ensures id in Run(s, events).cells && HeldUntil(Run(s, events).cells[id].row, device, until)
    decreases |events|
  {
    if events != [] {
      assert Silent([events[0]], id, device, until) by {
        assert [events[0]][0] == events[0];
      }
      AHeldRunIsLeft(s, events[0], id, device, until);
      StepKeeps(s, events[0]);
      hide Inv, Next, HeldUntil;
      ALeaseIsNotTakenEarly(Next(s, events[0]), events[1..], id, device, until);
    }
  }

  // ---- what a report records ----

  /**
   * A report of the device that holds the run ends it with its exit code, or puts it back when it
   * names an error, whatever exit code comes with that.
   */
  lemma AReportIsRecorded(s: System, e: Event, id: JobId)
    requires Inv(s) && id in s.cells && e.Report? && e.id == id && (e.error != "" || e.exitCode.Some?)
    requires HoldsLease(s.cells[id].row, s.agents, e.device, e.now)
    ensures
      var t := Next(s, e);
      && id in t.cells && var row := t.cells[id].row;
         if |e.error| > 0 then
           && row.status == (if s.cells[id].row.attempts == 3 then Dead else Pending)
           && row.device.None? && row.leaseExpires.None? && row.exitCode.None?
           && row.lastError.Some? && row.lastError.value <= e.error
           && |row.lastError.value| == if |e.error| <= 200 then |e.error| else 200
         else
           && row.status == (if e.exitCode.value == 0 then Success else Failure)
           && row.exitCode == e.exitCode && row.leaseExpires.None? && row.lastError.None?
           && row.findings.Some? && row.findings.value.unfinished == e.findings.unfinished
           && row.findings.value.log <= e.findings.log
           && |row.findings.value.log| == if |e.findings.log| <= 65536 then |e.findings.log| else 65536
  {
    var c := s.cells[id];
    assert CellInv(c);
    assert Next(s, e).cells[id] == CellAfter(c, id, e, s.agents, None);
    hide Inv, Next, Picked, Accounted, OneCustodian, CopiesAreLatest, InOrder, Spent, BackoffSeconds, ReportVerdict;
    assert CellAfter(c, id, e, s.agents, None)
        == Reported(c, s.agents, e.device, e.exitCode, e.error, e.findings, e.post, e.now);
  }

  /** A report of anyone else, or of a device whose lease is spent, changes nothing of the run. */
  lemma AReportWithoutALeaseIsRefused(s: System, e: Event, id: JobId)
    requires id in s.cells && e.Report? && e.id == id && !HoldsLease(s.cells[id].row, s.agents, e.device, e.now)
    ensures id in Next(s, e).cells && Next(s, e).cells[id] == s.cells[id]
  {
    hide BackoffSeconds, Spent;
  }

  // ---- presence ----

  /** A heartbeat notes its device, keeps every other heard of within thirty days, and no other. */
  lemma AHeartbeatKeepsWhoWasHeardOf(s: System, device: Device, now: real)
    ensures
      var t := Next(s, Heartbeat(device, now));
      && t.cells == s.cells && device in t.agents && t.agents[device] == now
      && forall other | other != device ::
           && (other in t.agents <==> other in s.agents && now - s.agents[other] <= 30.0 * 24.0 * 60.0 * 60.0)
           && (other in t.agents ==> t.agents[other] == s.agents[other])
  {
  }

  /** So it takes no run from another device, and saves none of another's. */
  lemma AHeartbeatConcernsItsDevice(s: System, device: Device, now: real, id: JobId)
    requires id in s.cells && s.cells[id].row.device != Some(device)
    ensures Lapsed(s.cells[id].row, Next(s, Heartbeat(device, now)).agents, now)
       <==> Lapsed(s.cells[id].row, s.agents, now)
  {
  }
}
