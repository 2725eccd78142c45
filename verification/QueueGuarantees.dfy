/** What the queue promises over whole runs, for every order of events from any sound state. */
module QueueGuarantees {
  import opened Prelude
  import opened JobRecord
  import opened Leases
  import opened Scheduling
  import opened VerdictLedger

  // ---- verdicts and the commit ----

  /** A run only adds to what the commit received, and never takes a number back. */
  lemma {:induction false} WallOnlyGrows(s: System, events: seq<Event>, id: JobId)
    requires id in s.cells
    ensures id in Run(s, events).cells
    ensures s.cells[id].wall <= Run(s, events).cells[id].wall
    ensures s.cells[id].row.statusSeq <= Run(s, events).cells[id].row.statusSeq
    decreases |events|
  {
    if events != [] {
      var mid := Next(s, events[0]);
      assert id in mid.cells && s.cells[id].wall <= mid.cells[id].wall
          && s.cells[id].row.statusSeq <= mid.cells[id].row.statusSeq;
      WallOnlyGrows(mid, events[1..], id);
    }
  }

  /**
   * Cut any run in two. Nothing that reaches the commit in the second half is numbered below
   * anything it received in the first, and a repeat of a number repeats its verdict.
   */
  lemma NoOlderVerdictLandsLater(first: seq<Event>, second: seq<Event>, id: JobId, i: nat, j: nat)
    requires id in Run(EMPTY, first).cells
    requires i < |Run(EMPTY, first).cells[id].wall|
    requires |Run(EMPTY, first).cells[id].wall| <= j
    ensures id in Run(EMPTY, first + second).cells
    ensures
      var earlier := Run(EMPTY, first).cells[id].wall;
      var wall := Run(EMPTY, first + second).cells[id].wall;
      && earlier <= wall
      && (j < |wall| ==>
            && earlier[i].seqNo <= wall[j].seqNo
            && (earlier[i].seqNo == wall[j].seqNo ==> earlier[i].verdict == wall[j].verdict))
  {
    RunConcat(EMPTY, first, second);
    WallOnlyGrows(Run(EMPTY, first), second, id);
    EveryRunKeepsTheInvariant(EMPTY, first + second);
  }

  /** Whether the event that last decided a verdict for the job is a report whose post broke off. */
  ghost predicate DecidedByABreakOff(s: System, events: seq<Event>, id: JobId, before: bool)
    decreases |events|
  {
    if events == [] then before
    else
      var e := events[0];
      var now := if id in s.cells && Decides(s.cells[id], id, e, s.agents) then BreaksOff(e) else before;
      DecidedByABreakOff(Next(s, e), events[1..], id, now)
  }

  lemma OneStepAccountsAs(s: System, e: Event, id: JobId)
    requires Inv(s)
    ensures id in s.cells ==> id in Next(s, e).cells && AccountsAs(s.cells[id], id, e, s.agents, Next(s, e).cells[id])
    ensures id !in s.cells && id in Next(s, e).cells ==> Accounted(Next(s, e).cells[id])
  {
    if id in s.cells && !e.Enqueue? && !e.Heartbeat? {
      StepKeepsCell(s, e, id);
      hide Inv, AccountsAs, Accounted, CellAfter;
    }
  }

  /** Over any run the newest verdict is accounted for unless the report that decided it broke off. */
  lemma {:induction false} AccountedUnlessBrokenOff(s: System, events: seq<Event>, id: JobId, before: bool)
    requires Inv(s)
    requires if id in s.cells then Accounted(s.cells[id]) <==> !before else !before
    ensures
      var t := Run(s, events);
      if id in t.cells then Accounted(t.cells[id]) <==> !DecidedByABreakOff(s, events, id, before)
      else !DecidedByABreakOff(s, events, id, before)
    decreases |events|
  {
    if events != [] {
      var e := events[0];
      StepKeeps(s, e);
      OneStepAccountsAs(s, e, id);
      var now := if id in s.cells && Decides(s.cells[id], id, e, s.agents) then BreaksOff(e) else before;
      hide Inv, Next, Accounted, Decides;
      AccountedUnlessBrokenOff(Next(s, e), events[1..], id, now);
    }
  }

  /**
   * Once a job was given a verdict, its newest one is on the commit, in its row, or in a drain's
   * hand under the current number if and only if the report that decided it did not break off.
   * The row and the hands never hold it twice, and what the row owes is never an older verdict.
   */
  lemma NoVerdictIsLostOrDuplicated(events: seq<Event>, id: JobId)
    requires id in Run(EMPTY, events).cells
    ensures
      var c := Run(EMPTY, events).cells[id];
      && (c.row.statusSeq > 0 <==> c.latest.Some?)
      && (c.row.statusSeq > 0 ==>
            (Published(c) || c.row.pendingStatus == c.latest || InHand(c)
             <==> !DecidedByABreakOff(EMPTY, events, id, false)))
      && (c.row.pendingStatus.Some? ==> c.row.pendingStatus == c.latest && !InHand(c))
      && (forall i, j | 0 <= i < |c.hand| && 0 <= j < |c.hand| && c.hand[i].seqNo == c.hand[j].seqNo :: i == j)
  {
    EveryRunKeepsTheInvariant(EMPTY, events);
    AccountedUnlessBrokenOff(EMPTY, events, id, false);
    var c := Run(EMPTY, events).cells[id];
    assert CellInv(c);
    hide Run, Inv, DecidedByABreakOff, Lifecycle, InOrder;
  }

  /** An owed verdict, a current one in hand, and a current one on the commit all name the row's state. */
  lemma EveryCurrentVerdictNamesTheRow(events: seq<Event>, id: JobId)
    requires id in Run(EMPTY, events).cells
    ensures
      var c := Run(EMPTY, events).cells[id];
      && (c.row.pendingStatus.Some? ==> c.row.pendingStatus.value.state == StateFor(c.row))
      && (forall i | 0 <= i < |c.hand| && c.hand[i].seqNo == c.row.statusSeq ::
            c.hand[i].verdict.state == StateFor(c.row))
      && (forall i | 0 <= i < |c.wall| && c.wall[i].seqNo == c.row.statusSeq ::
            c.wall[i].verdict.state == StateFor(c.row))
  {
    EveryRunKeepsTheInvariant(EMPTY, events);
  }

  /**
   * When nothing is owed or in hand, the commit's last status is the newest verdict and names the
   * run's real state, if and only if the report that decided it did not break off.
   */
  lemma ASettledQueueHasToldTheCommit(events: seq<Event>, id: JobId)
    requires id in Run(EMPTY, events).cells
    requires
      var c := Run(EMPTY, events).cells[id];
      c.row.statusSeq > 0 && c.row.pendingStatus.None? && c.hand == []
    ensures
      var c := Run(EMPTY, events).cells[id];
      && (Published(c) <==> !DecidedByABreakOff(EMPTY, events, id, false))
      && (Published(c) ==>
            && c.latest == Some(c.wall[|c.wall| - 1].verdict)
            && c.wall[|c.wall| - 1].verdict.state == StateFor(c.row))
  {
    NoVerdictIsLostOrDuplicated(events, id);
    EveryRunKeepsTheInvariant(EMPTY, events);
    var c := Run(EMPTY, events).cells[id];
    assert CellInv(c);
    hide Run, Inv, DecidedByABreakOff;
  }

  /** A report of a running job whose post breaks off leaves the row settled and its verdict nowhere. */
  lemma ABrokenOffReportLosesItsVerdict(s: System, id: JobId, device: Device, exitCode: int, findings: Findings,
                                        now: real)
    requires Inv(s) && id in s.cells && HoldsLease(s.cells[id].row, s.agents, device, now)
    ensures
      var t := Next(s, Report(id, device, Some(exitCode), "", findings, BrokeOff(false), now));
      && id in t.cells && Lost(t.cells[id]) && Settled(t.cells[id].row)
      && t.cells[id].wall == s.cells[id].wall
  {
    assert CellInv(s.cells[id]);
    hide Accounted, InOrder, CopiesAreLatest;
  }

  lemma TheFirstOfItsQueue(id: JobId, repository: string)
    ensures Next(EMPTY, Enqueue(id, repository, {}, None, 0.0))
         == System(map[id := Cell(NewJob(repository, {}, 0.0, None), [], [], None)], map[])
  {
  }

  /** A job alone in its queue is what a claim hands out. */
  lemma AloneItIsClaimed(s: System, id: JobId, e: Event)
    requires e.Claim? && e.lease > 0.0 && e.cap.None? && s.cells.Keys == {id}
    requires Eligible(Rows(s), id, e.offered, e.now, e.cap)
    ensures Next(s, e) == s.(cells := map[id := Claimed(s.cells[id], e.device, e.lease, e.now)])
  {
    assert Pick(Rows(s), e.offered, e.now, e.cap) == Some(id);
    hide Pick, Claimed;
    assert Next(s, e).cells == map[id := Claimed(s.cells[id], e.device, e.lease, e.now)];
  }

  // One job, claimed by one device.
  function FreshRun(id: JobId, device: Device, lease: real): System {
    System(map[id := Cell(ClaimRow(NewJob("", {}, 0.0, None), device, lease, 0.0), [], [], None)], map[])
  }

  lemma AFreshRunIsReached(id: JobId, device: Device, lease: real)
    requires lease > 0.0
    ensures Run(EMPTY, [Enqueue(id, "", {}, None, 0.0), Claim(device, {}, lease, 0.0, None)])
         == FreshRun(id, device, lease)
    ensures HoldsLease(FreshRun(id, device, lease).cells[id].row, map[], device, 0.0)
  {
    var enqueue, claim := Enqueue(id, "", {}, None, 0.0), Claim(device, {}, lease, 0.0, None);
    TheFirstOfItsQueue(id, "");
    var queued := Next(EMPTY, enqueue);
    AloneItIsClaimed(queued, id, claim);
    hide Next;
    assert [enqueue, claim][1..] == [claim] && [claim][1..] == [];
    assert Run(EMPTY, [enqueue, claim]) == Run(queued, [claim]) == Run(Next(queued, claim), []);
  }

  /** Such a run exists: one job, claimed and reported. */
  lemma AVerdictCanBeLost(id: JobId, device: Device, exitCode: int, findings: Findings, lease: real)
    requires lease > 0.0
    ensures
      var events := [Enqueue(id, "", {}, None, 0.0), Claim(device, {}, lease, 0.0, None)]
                    + [Report(id, device, Some(exitCode), "", findings, BrokeOff(false), 0.0)];
      var t := Run(EMPTY, events);
      id in t.cells && Lost(t.cells[id]) && Settled(t.cells[id].row) && t.cells[id].wall == []
  {
    var claimed := [Enqueue(id, "", {}, None, 0.0), Claim(device, {}, lease, 0.0, None)];
    var report := Report(id, device, Some(exitCode), "", findings, BrokeOff(false), 0.0);
    AFreshRunIsReached(id, device, lease);
    RunConcat(EMPTY, claimed, [report]);
    TheEmptyQueueIsSound();
    EveryRunKeepsTheInvariant(EMPTY, claimed);
    hide Next, HoldsLease, Inv, Lost, Settled;
    var start := FreshRun(id, device, lease);
    assert Run(start, [report]) == Run(Next(start, report), []);
    ABrokenOffReportLosesItsVerdict(start, id, device, exitCode, findings, 0.0);
  }

  lemma TheEmptyQueueIsSound()
    ensures Inv(EMPTY)
  {
  }

  /** A final verdict that was lost is never told, whatever runs after it. */
  lemma {:induction false} AFinalVerdictLostStaysLost(s: System, events: seq<Event>, id: JobId)
    requires Inv(s) && id in s.cells && Settled(s.cells[id].row) && Lost(s.cells[id])
    ensures
      var t := Run(s, events);
      id in t.cells && Lost(t.cells[id]) && t.cells[id].wall == s.cells[id].wall
    decreases |events|
  {
    if events != [] {
      LostStaysLost(s, events[0], id);
      EveryRowStep(s, events[0], id);
      hide Inv, Next, Lost;
      AFinalVerdictLostStaysLost(Next(s, events[0]), events[1..], id);
    }
  }

  lemma ASettledRunIsNotPicked(s: System, e: Event, id: JobId)
    requires id in s.cells && Settled(s.cells[id].row)
    ensures Picked(s, e) != Some(id)
  {
    if Picked(s, e).Some? {
      assert Eligible(Rows(s), Picked(s, e).value, e.offered, e.now, e.cap);
    }
  }

  lemma LostStaysLost(s: System, e: Event, id: JobId)
    requires id in s.cells && Settled(s.cells[id].row) && Lost(s.cells[id])
    ensures id in Next(s, e).cells && Lost(Next(s, e).cells[id]) && Next(s, e).cells[id].wall == s.cells[id].wall
  {
    ASettledRunIsNotPicked(s, e, id);
    hide Picked;
  }

  // ---- the life of a run ----

  ghost predicate Settled(row: Job) {
    row.status == Success || row.status == Failure || row.status == Dead
  }

  /** Falls on every claim, every release and every verdict; nothing raises it. */
  ghost function Rank(row: Job): nat
    requires Lifecycle(row)
  {
    match row.status
    case Pending => 2 * (MAX_ATTEMPTS - row.attempts)
    case Running => 2 * (MAX_ATTEMPTS - row.attempts) + 1
    case _ => 0
  }

  /** Every way one event can move one row from stage to stage. */
  ghost predicate RowStep(before: Job, after: Job, claimed: bool, exited: bool) {
    && Lifecycle(before) && Lifecycle(after)
    && before.repository == after.repository
    && after.attempts == before.attempts + (if claimed then 1 else 0)
    && (claimed ==> before.status == Pending && after.status == Running)
    && (after.status != before.status && !claimed ==>
          before.status == Running && after.status in {Pending, Dead, Success, Failure})
    && (exited <==> before.exitCode.None? && after.exitCode.Some?)
    && (exited ==> before.status == Running)
    && (Settled(before) ==> after == before.(pendingStatus := after.pendingStatus))
  }

  ghost predicate RecordsExitCode(s: System, e: Event, id: JobId) {
    && e.Report? && e.id == id && id in s.cells && e.error == ""
    && Settle(s.cells[id].row, s.agents, e.device, e.exitCode, e.error, e.findings, e.now).Ok?
  }

  lemma EnqueueRowStep(s: System, e: Event, id: JobId)
    requires Inv(s) && id in s.cells && (e.Enqueue? || e.Heartbeat?)
    ensures id in Next(s, e).cells && Next(s, e).cells[id] == s.cells[id]
    ensures RowStep(s.cells[id].row, Next(s, e).cells[id].row, Picked(s, e) == Some(id), RecordsExitCode(s, e, id))
  {
  }

  lemma ClaimRowStep(s: System, e: Event, id: JobId)
    requires Inv(s) && id in s.cells && e.Claim?
    ensures id in Next(s, e).cells
    ensures RowStep(s.cells[id].row, Next(s, e).cells[id].row, Picked(s, e) == Some(id), RecordsExitCode(s, e, id))
  {
    if Picked(s, e) == Some(id) {
      assert Eligible(Rows(s), id, e.offered, e.now, e.cap);
    }
  }

  lemma ReportRowStep(c: Cell, agents: Agents, device: Device, exitCode: Option<int>, error: string,
                      findings: Findings, post: Post, now: real)
    requires CellInv(c)
    ensures RowStep(c.row, Reported(c, agents, device, exitCode, error, findings, post, now).row, false,
                    error == "" && Settle(c.row, agents, device, exitCode, error, findings, now).Ok?)
  {
  }

  lemma QuietRowStep(c: Cell, agents: Agents, e: Event, id: JobId)
    requires CellInv(c) && (e.RenewLease? || e.DrainTake? || e.DrainPost? || e.CheckDone? || e.Reclaim?)
    ensures RowStep(c.row, CellAfter(c, id, e, agents, None).row, false, false)
  {
  }

  lemma OtherRowStep(s: System, e: Event, id: JobId)
    requires Inv(s) && id in s.cells && !e.Enqueue? && !e.Heartbeat? && !e.Claim?
    ensures id in Next(s, e).cells
    ensures RowStep(s.cells[id].row, Next(s, e).cells[id].row, Picked(s, e) == Some(id), RecordsExitCode(s, e, id))
  {
    var c := s.cells[id];
    assert Next(s, e).cells[id] == CellAfter(c, id, e, s.agents, None);
    hide RowStep, CellInv, Settle, Posted, Checked, Taken, Reclaimed, Reported, Renew;
    match e
    case Report(job, device, exitCode, error, findings, post, now) =>
      ReportRowStep(c, s.agents, device, exitCode, error, findings, post, now);
      if job != id { UnchangedRowStep(c); }
    case _ => QuietRowStep(c, s.agents, e, id);
  }

  lemma UnchangedRowStep(c: Cell)
    requires CellInv(c)
    ensures RowStep(c.row, c.row, false, false)
  {
  }

  lemma EveryRowStep(s: System, e: Event, id: JobId)
    requires Inv(s) && id in s.cells
    ensures Inv(Next(s, e)) && id in Next(s, e).cells
    ensures RowStep(s.cells[id].row, Next(s, e).cells[id].row, Picked(s, e) == Some(id), RecordsExitCode(s, e, id))
  {
    hide Inv, Next, CellAfter, RowStep, RecordsExitCode;
    StepKeeps(s, e);
    if e.Enqueue? || e.Heartbeat? {
      EnqueueRowStep(s, e, id);
    } else if e.Claim? {
      ClaimRowStep(s, e, id);
    } else {
      OtherRowStep(s, e, id);
    }
  }

  /** The rank falls exactly when the stage or the attempts change. */
  lemma RankFallsOnEveryChange(before: Job, after: Job, claimed: bool, exited: bool)
    requires RowStep(before, after, claimed, exited)
    ensures Rank(after) <= Rank(before)
    ensures Rank(after) == Rank(before) <==> after.status == before.status && after.attempts == before.attempts
  {
  }

  /** How often a run of events hands the job out. */
  ghost function ClaimsOf(s: System, events: seq<Event>, id: JobId): nat
    decreases |events|
  {
    if events == [] then 0
    else (if Picked(s, events[0]) == Some(id) then 1 else 0) + ClaimsOf(Next(s, events[0]), events[1..], id)
  }

  /** How often the job's stage changes. */
  ghost function StageChanges(s: System, events: seq<Event>, id: JobId): nat
    requires id in s.cells
    decreases |events|
  {
    if events == [] then 0
    else
      var after := Next(s, events[0]);
      (if after.cells[id].row.status == s.cells[id].row.status then 0 else 1) + StageChanges(after, events[1..], id)
  }

  lemma {:induction false} ChangesAreBounded(s: System, events: seq<Event>, id: JobId)
    requires Inv(s) && id in s.cells
    ensures id in Run(s, events).cells
    ensures Lifecycle(s.cells[id].row) && Lifecycle(Run(s, events).cells[id].row)
    ensures s.cells[id].row.attempts + ClaimsOf(s, events, id) == Run(s, events).cells[id].row.attempts
    ensures StageChanges(s, events, id) + Rank(Run(s, events).cells[id].row) <= Rank(s.cells[id].row)
    decreases |events|
  {
    if events != [] {
      hide Inv, Next;
      var mid := Next(s, events[0]);
      EveryRowStep(s, events[0], id);
      RankFallsOnEveryChange(s.cells[id].row, mid.cells[id].row, Picked(s, events[0]) == Some(id),
                             RecordsExitCode(s, events[0], id));
      ChangesAreBounded(mid, events[1..], id);
    }
  }

  /** From its enqueue on, a job is handed out at most three times and changes stage at most six. */
  lemma AJobIsHandedOutAtMostThreeTimes(s: System, enqueue: Event, events: seq<Event>)
    requires Inv(s) && Inserts(s, enqueue)
    ensures enqueue.id in Next(s, enqueue).cells
    ensures ClaimsOf(Next(s, enqueue), events, enqueue.id) <= MAX_ATTEMPTS
    ensures StageChanges(Next(s, enqueue), events, enqueue.id) <= 2 * MAX_ATTEMPTS
  {
    StepKeeps(s, enqueue);
    ChangesAreBounded(Next(s, enqueue), events, enqueue.id);
  }

  /** A settled run keeps its stage, its exit code, its attempts and its verdict number for good. */
  lemma {:induction false} SettledIsForGood(s: System, events: seq<Event>, id: JobId)
    requires Inv(s) && id in s.cells && Settled(s.cells[id].row)
    ensures id in Run(s, events).cells
    ensures
      var before, after := s.cells[id].row, Run(s, events).cells[id].row;
      after == before.(pendingStatus := after.pendingStatus)
    decreases |events|
  {
    hide Inv, Next;
    if events != [] {
      EveryRowStep(s, events[0], id);
      SettledIsForGood(Next(s, events[0]), events[1..], id);
    }
  }

  ghost function ExitCodesRecorded(s: System, events: seq<Event>, id: JobId): nat
    decreases |events|
  {
    if events == [] then 0
    else (if RecordsExitCode(s, events[0], id) then 1 else 0) + ExitCodesRecorded(Next(s, events[0]), events[1..], id)
  }

  /** At most one exit code is ever recorded for a job, and it is the one its row carries. */
  lemma {:induction false} AtMostOneExitCode(s: System, events: seq<Event>, id: JobId)
    requires Inv(s) && id in s.cells
    ensures id in Run(s, events).cells
    ensures ExitCodesRecorded(s, events, id) <= 1
    ensures ExitCodesRecorded(s, events, id) + (if s.cells[id].row.exitCode.Some? then 1 else 0)
         == if Run(s, events).cells[id].row.exitCode.Some? then 1 else 0
    decreases |events|
  {
    hide Inv, Next, RecordsExitCode;
    if events != [] {
      EveryRowStep(s, events[0], id);
      AtMostOneExitCode(Next(s, events[0]), events[1..], id);
    }
  }

  // ---- a device that lost its run ----

  /** How often a run of events hands the job to this device. */
  ghost function ClaimsBy(s: System, events: seq<Event>, id: JobId, device: Device): nat
    decreases |events|
  {
    if events == [] then 0
    else
      (if Picked(s, events[0]) == Some(id) && events[0].device == device then 1 else 0)
      + ClaimsBy(Next(s, events[0]), events[1..], id, device)
  }

  ghost predicate HeldBy(row: Job, device: Device) {
    row.status == Running && row.device == Some(device)
  }

  lemma OnlyAClaimHandsOver(s: System, e: Event, id: JobId, device: Device)
    requires id in s.cells && !HeldBy(s.cells[id].row, device)
    requires !(Picked(s, e) == Some(id) && e.device == device)
    ensures id in Next(s, e).cells && !HeldBy(Next(s, e).cells[id].row, device)
  {
    if !e.Enqueue? && !e.Heartbeat? {
      assert Next(s, e).cells[id] == CellAfter(s.cells[id], id, e, s.agents, Picked(s, e));
      hide Picked, Next;
    }
  }

  /**
   * A run a device does not hold stays lost to it until the device itself claims the run again,
   * whoever else claims it meanwhile: it can neither renew the run nor report it.
   */
  lemma {:induction false} ALostRunStaysLostToItsDevice(s: System, events: seq<Event>, id: JobId, device: Device,
                                                        exitCode: Option<int>, error: string, findings: Findings,
                                                        now: real)
    requires id in s.cells && !HeldBy(s.cells[id].row, device)
    requires ClaimsBy(s, events, id, device) == 0
    ensures
      var after := Run(s, events);
      && id in after.cells
      && !HeldBy(after.cells[id].row, device)
      && !HoldsLease(after.cells[id].row, after.agents, device, now)
      && Settle(after.cells[id].row, after.agents, device, exitCode, error, findings, now) == Err(NotLeased)
    decreases |events|
  {
    if events != [] {
      hide Next, Settle;
      OnlyAClaimHandsOver(s, events[0], id, device);
      ALostRunStaysLostToItsDevice(Next(s, events[0]), events[1..], id, device, exitCode, error, findings, now);
    }
  }

  /** A reclaim leaves nothing running on a spent lease, and takes no run whose lease is not. */
  lemma ReclaimTakesEverySpentLease(s: System, now: real, id: JobId)
    requires Inv(s) && id in s.cells
    ensures
      var before, after := s.cells[id].row, Next(s, Reclaim(now)).cells[id].row;
      && !Lapsed(after, s.agents, now)
      && (before == after <==> !(before.status == Running && Spent(before, s.agents, now)))
      && (before != after ==>
            && after.status == (if before.attempts < MAX_ATTEMPTS then Pending else Dead)
            && after.attempts == before.attempts && after.device.None?
            && after.statusSeq == before.statusSeq + 1
            && after.pendingStatus == Some(LostDescription(before, LEASE_LOST)))
  {
  }

  // ---- one repository's share of the pool ----

  ghost predicate EveryClaimIsCapped(events: seq<Event>, cap: nat) {
    forall i | 0 <= i < |events| && events[i].Claim? :: events[i].cap == Some(cap)
  }

  /** Without a claim the rows running afterwards were running before. */
  lemma FewerRunWithoutAClaim(s: System, e: Event, repository: string)
    requires Inv(s) && Picked(s, e).None?
    ensures |RunningIn(Rows(Next(s, e)), repository)| <= |RunningIn(Rows(s), repository)|
  {
    var t := Next(s, e);
    var before, after := RunningIn(Rows(s), repository), RunningIn(Rows(t), repository);
    forall id | id in after ensures id in before {
      NewJobsWait(s, e, id);
      EveryRowStep(s, e, id);
    }
    SubsetIsNoLarger(after, before);
  }

  lemma NewJobsWait(s: System, e: Event, id: JobId)
    requires id in Next(s, e).cells && Next(s, e).cells[id].row.status == Running
    ensures id in s.cells
  {
  }

  lemma AClaimChangesOneRow(s: System, e: Event)
    requires Picked(s, e).Some?
    ensures
      var id := Picked(s, e).value;
      && id in s.cells
      && Rows(Next(s, e)) == Rows(s)[id := ClaimRow(Rows(s)[id], e.device, e.lease, e.now)]
  {
    assert Eligible(Rows(s), Picked(s, e).value, e.offered, e.now, e.cap);
  }

  lemma OneMoreRuns(rows: Table, id: JobId, after: Job, repository: string)
    requires id in rows && rows[id].status != Running && after.status == Running
    requires after.repository == rows[id].repository
    ensures |RunningIn(rows[id := after], repository)|
         == |RunningIn(rows, repository)| + if rows[id].repository == repository then 1 else 0
  {
    if rows[id].repository == repository {
      assert RunningIn(rows[id := after], repository) == RunningIn(rows, repository) + {id};
    } else {
      assert RunningIn(rows[id := after], repository) == RunningIn(rows, repository);
    }
  }

  /** A claim adds its pick to the running rows of its own repository and touches no other. */
  lemma AClaimRunsOneMore(s: System, e: Event, repository: string)
    requires Picked(s, e).Some?
    ensures
      var id := Picked(s, e).value;
      && id in s.cells
      && |RunningIn(Rows(Next(s, e)), repository)| == |RunningIn(Rows(s), repository)|
           + if s.cells[id].row.repository == repository then 1 else 0
  {
    hide Next, RunningIn;
    var id := Picked(s, e).value;
    assert Eligible(Rows(s), id, e.offered, e.now, e.cap);
    AClaimChangesOneRow(s, e);
    OneMoreRuns(Rows(s), id, ClaimRow(Rows(s)[id], e.device, e.lease, e.now), repository);
  }

  /** When every claim uses one cap, no repository ever runs more than the cap. */
  lemma {:induction false} TheCapHolds(s: System, events: seq<Event>, cap: nat, repository: string)
    requires Inv(s) && EveryClaimIsCapped(events, cap)
    requires |RunningIn(Rows(s), repository)| <= cap
    ensures |RunningIn(Rows(Run(s, events)), repository)| <= cap
    decreases |events|
  {
    hide Next, Inv, RunningIn, Rows;
    if events != [] {
      var e := events[0];
      OneStepKeepsTheCap(s, e, cap, repository);
      StepKeeps(s, e);
      TheCapHolds(Next(s, e), events[1..], cap, repository);
    }
  }

  lemma OneStepKeepsTheCap(s: System, e: Event, cap: nat, repository: string)
    requires Inv(s) && (e.Claim? ==> e.cap == Some(cap))
    requires |RunningIn(Rows(s), repository)| <= cap
    ensures |RunningIn(Rows(Next(s, e)), repository)| <= cap
  {
    if Picked(s, e).Some? {
      AClaimRunsOneMore(s, e, repository);
      assert Eligible(Rows(s), Picked(s, e).value, e.offered, e.now, e.cap);
      hide Inv, Next;
    } else {
      FewerRunWithoutAClaim(s, e, repository);
    }
  }
}
