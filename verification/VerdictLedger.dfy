/**
 * The job queue as a machine of atomic steps: every transaction and every region under the
 * status lock is one event, and any order of events is a run. Beside each row the machine keeps
 * what the row alone cannot show: the verdicts drains have in hand, the verdicts the commit has
 * received, and the verdict decided last.
 */
module VerdictLedger {
  import opened Prelude
  import opened JobRecord
  import opened Leases
  import opened Scheduling

  // A verdict a drain took out of its row; `posted` once the commit has it and the check is open.
  datatype Held = Held(verdict: Verdict, seqNo: nat, posted: bool)

  // One commit status that reached the commit, under the number it was posted with.
  datatype Posting = Posting(seqNo: nat, verdict: Verdict)

  // How one status request to GitHub ends: told, refused in a way the client names, or broken off by
  // an error it does not, such as a timeout while the answer is read. The commit may have the
  // status even when the request did not end well.
  datatype Post = Told | Refused(landed: bool) | BrokeOff(landed: bool)

  predicate Landed(post: Post) {
    post.Told? || post.landed
  }

  datatype Cell = Cell(row: Job, hand: seq<Held>, wall: seq<Posting>, latest: Option<Verdict>)

  datatype System = System(cells: map<JobId, Cell>, agents: Agents)

  datatype Event =
    | Enqueue(id: JobId, repository: string, labels: set<string>, delivery: Option<string>, now: real)
    | Heartbeat(device: Device, now: real)
    | Claim(device: Device, offered: set<string>, lease: real, now: real, cap: Option<nat>)
    | RenewLease(id: JobId, device: Device, lease: real, now: real)
    | Report(id: JobId, device: Device, exitCode: Option<int>, error: string, findings: Findings,
             post: Post, now: real)
    | Reclaim(now: real)
    | DrainTake
    | DrainPost(id: JobId, k: nat, post: Post)
    | CheckDone(id: JobId, k: nat, closed: bool)

  const EMPTY := System(map[], map[])

  function Rows(s: System): Table {
    map id | id in s.cells :: s.cells[id].row
  }

  // ---- what one event does to one cell ----

  /** The verdict a report publishes, computed from the row it settles. */
  function ReportVerdict(row: Job, exitCode: Option<int>, error: string, findings: Findings): Verdict
    requires error != "" || exitCode.Some?
  {
    if error != "" then LostDescription(row, error)
    else if exitCode.value == 0 then Verdict(SuccessState, Passed)
    else Verdict(FailureState, FailedRun(exitCode.value, findings))
  }

  /**
   * A report under the lock: settle, post, and owe the status when the post was refused. A post
   * that breaks off ends the request there, with the row settled and nothing owed.
   */
  function Reported(c: Cell, agents: Agents, device: Device, exitCode: Option<int>, error: string,
                    findings: Findings, post: Post, now: real): Cell
  {
    var settled := Settle(c.row, agents, device, exitCode, error, findings, now);
    if settled.Err? then c
    else
      var verdict := ReportVerdict(c.row, exitCode, error, findings);
      AfterPost(c, settled.value, verdict, post)
  }

  // A row just settled, with its status told, owed, or left at that.
  function AfterPost(c: Cell, settled: Job, verdict: Verdict, post: Post): Cell {
    Cell(if post.Refused? then OweStatus(settled, verdict) else settled,
         c.hand,
         if Landed(post) then c.wall + [Posting(settled.statusSeq, verdict)] else c.wall,
         Some(verdict))
  }

  function OweStatus(row: Job, verdict: Verdict): Job {
    row.(pendingStatus := Some(verdict), statusSeq := row.statusSeq + 1)
  }

  /** Only an empty slot under the same number takes the verdict. */
  function RestoreStatus(row: Job, verdict: Verdict, seqNo: nat): Job {
    if row.pendingStatus.None? && row.statusSeq == seqNo then row.(pendingStatus := Some(verdict)) else row
  }

  function Reclaimed(c: Cell, agents: Agents, now: real): Cell {
    if !Lapsed(c.row, agents, now) then c
    else
      var verdict := LostDescription(c.row, LEASE_LOST);
      c.(row := Release(c.row, now, LEASE_LOST, Some(verdict)), latest := Some(verdict))
  }

  function Claimed(c: Cell, device: Device, lease: real, now: real): Cell {
    c.(row := ClaimRow(c.row, device, lease, now))
  }

  function ClaimRow(row: Job, device: Device, lease: real, now: real): Job {
    row.(status := Running, device := Some(device), leaseExpires := Some(now + lease), attempts := row.attempts + 1)
  }

  function Taken(c: Cell): Cell {
    if c.row.pendingStatus.None? then c
    else c.(row := c.row.(pendingStatus := None),
            hand := c.hand + [Held(c.row.pendingStatus.value, c.row.statusSeq, false)])
  }

  /** A stale verdict is dropped; a current one is told, or restored on any failure. */
  function Posted(c: Cell, k: nat, post: Post): Cell {
    if k >= |c.hand| || c.hand[k].posted then c
    else
      var h := c.hand[k];
      if c.row.statusSeq != h.seqNo then c.(hand := Without(c.hand, k))
      else
        var wall := if Landed(post) then c.wall + [Posting(h.seqNo, h.verdict)] else c.wall;
        if post.Told? then c.(hand := c.hand[k := h.(posted := true)], wall := wall)
        else c.(hand := Without(c.hand, k), row := RestoreStatus(c.row, h.verdict, h.seqNo), wall := wall)
  }

  /** The check run after a post: one that fails puts the verdict back. */
  function Checked(c: Cell, k: nat, closed: bool): Cell {
    if k >= |c.hand| || !c.hand[k].posted then c
    else if closed then c.(hand := Without(c.hand, k))
    else c.(hand := Without(c.hand, k), row := RestoreStatus(c.row, c.hand[k].verdict, c.hand[k].seqNo))
  }

  // ---- the machine ----

  function CellAfter(c: Cell, id: JobId, e: Event, agents: Agents, picked: Option<JobId>): Cell {
    match e
    case Claim(device, _, lease, now, _) => if picked == Some(id) then Claimed(c, device, lease, now) else c
    case RenewLease(job, device, lease, now) =>
      if id == job && lease > 0.0 then c.(row := Renew(c.row, agents, device, lease, now)) else c
    case Report(job, device, exitCode, error, findings, post, now) =>
      if id == job then Reported(c, agents, device, exitCode, error, findings, post, now) else c
    case Reclaim(now) => Reclaimed(c, agents, now)
    case DrainTake => Taken(c)
    case DrainPost(job, k, post) => if id == job then Posted(c, k, post) else c
    case CheckDone(job, k, closed) => if id == job then Checked(c, k, closed) else c
    case _ => c
  }

  /** A second enqueue of an id or of a delivery inserts nothing. */
  predicate Inserts(s: System, e: Event) {
    && e.Enqueue?
    && e.id !in s.cells
    && (e.delivery.None? || forall id | id in s.cells :: s.cells[id].row.delivery != e.delivery)
  }

  /** The job a claim event hands out. */
  ghost function Picked(s: System, e: Event): Option<JobId> {
    if e.Claim? && e.lease > 0.0 && e.cap != Some(0) then Pick(Rows(s), e.offered, e.now, e.cap) else None
  }

  ghost function Next(s: System, e: Event): System {
    if e.Enqueue? then
      if Inserts(s, e) then
        s.(cells := s.cells[e.id := Cell(NewJob(e.repository, e.labels, e.now, e.delivery), [], [], None)])
      else s
    else if e.Heartbeat? then s.(agents := Announce(s.agents, e.device, e.now))
    else
      var picked := Picked(s, e);
      s.(cells := map id | id in s.cells :: CellAfter(s.cells[id], id, e, s.agents, picked))
  }

  ghost function Run(s: System, events: seq<Event>): System
    decreases |events|
  {
    if events == [] then s else Run(Next(s, events[0]), events[1..])
  }

  lemma {:induction false} RunConcat(s: System, first: seq<Event>, second: seq<Event>)
    ensures Run(s, first + second) == Run(Run(s, first), second)
    decreases |first|
  {
    if first == [] {
      assert first + second == second;
    } else {
      assert (first + second)[0] == first[0] && (first + second)[1..] == first[1..] + second;
      RunConcat(Next(s, first[0]), first[1..], second);
    }
  }

  // ---- the invariant of one cell ----

  /** No numbered verdict is in two places at once, and one in hand is never newer than its row. */
  ghost predicate OneCustodian(c: Cell) {
    && (forall i | 0 <= i < |c.hand| :: 0 < c.hand[i].seqNo <= c.row.statusSeq)
    && (forall i, j | 0 <= i < j < |c.hand| :: c.hand[i].seqNo != c.hand[j].seqNo)
    && (c.row.pendingStatus.Some? ==>
          c.row.statusSeq > 0 && forall i | 0 <= i < |c.hand| :: c.hand[i].seqNo != c.row.statusSeq)
  }

  /** Every copy of the newest verdict is the newest verdict. */
  ghost predicate CopiesAreLatest(c: Cell) {
    && (c.row.pendingStatus.Some? ==> c.row.pendingStatus == c.latest)
    && (forall i | 0 <= i < |c.hand| && c.hand[i].seqNo == c.row.statusSeq :: c.latest == Some(c.hand[i].verdict))
    && (forall i | 0 <= i < |c.wall| && c.wall[i].seqNo == c.row.statusSeq :: c.latest == Some(c.wall[i].verdict))
  }

  /** What the commit received is in order of number, and one number means one verdict. */
  ghost predicate InOrder(wall: seq<Posting>) {
    && (forall i, j | 0 <= i <= j < |wall| :: wall[i].seqNo <= wall[j].seqNo)
    && (forall i, j | 0 <= i <= j < |wall| && wall[i].seqNo == wall[j].seqNo :: wall[i].verdict == wall[j].verdict)
  }

  /** The commit's last status is the newest verdict. */
  ghost predicate Published(c: Cell) {
    |c.wall| > 0 && c.wall[|c.wall| - 1].seqNo == c.row.statusSeq
  }

  ghost predicate InHand(c: Cell) {
    exists i :: 0 <= i < |c.hand| && c.hand[i].seqNo == c.row.statusSeq && !c.hand[i].posted
  }

  /** The newest verdict is published, owed by its row, or in a drain's hand. */
  ghost predicate Accounted(c: Cell) {
    && (c.row.statusSeq > 0 ==> Published(c) || c.row.pendingStatus.Some? || InHand(c))
    && (forall i | 0 <= i < |c.hand| && c.hand[i].posted && c.hand[i].seqNo == c.row.statusSeq :: Published(c))
  }

  /** The newest verdict is nowhere: not published, not owed, not in hand. */
  ghost predicate Lost(c: Cell) {
    && c.row.statusSeq > 0
    && c.row.pendingStatus.None?
    && (forall i | 0 <= i < |c.hand| :: c.hand[i].seqNo != c.row.statusSeq)
    && (forall i | 0 <= i < |c.wall| :: c.wall[i].seqNo != c.row.statusSeq)
  }

  /** The newest verdict names the state of the row as it is now. */
  ghost predicate NamesTheRow(c: Cell) {
    && (c.row.statusSeq > 0 <==> c.latest.Some?)
    && (c.latest.Some? ==> c.latest.value.state == StateFor(c.row))
  }

  ghost predicate CellInv(c: Cell) {
    && Lifecycle(c.row)
    && OneCustodian(c)
    && CopiesAreLatest(c)
    && InOrder(c.wall)
    && (forall i | 0 <= i < |c.wall| :: 0 < c.wall[i].seqNo <= c.row.statusSeq)
    && (Accounted(c) || Lost(c))
    && NamesTheRow(c)
  }

  ghost predicate Inv(s: System) {
    && (forall id | id in s.cells :: CellInv(s.cells[id]))
    && (forall a, b | a in s.cells && b in s.cells && a != b && s.cells[a].row.delivery.Some? ::
          s.cells[a].row.delivery != s.cells[b].row.delivery)
  }

  // ---- which events decide a verdict ----

  /** An event that gives a run a verdict: a report that settles it, or a reclaim that takes it. */
  ghost predicate Decides(c: Cell, id: JobId, e: Event, agents: Agents) {
    || (&& e.Report? && e.id == id
        && Settle(c.row, agents, e.device, e.exitCode, e.error, e.findings, e.now).Ok?)
    || (e.Reclaim? && Lapsed(c.row, agents, e.now))
  }

  /** A report whose post broke off before the commit had it. */
  predicate BreaksOff(e: Event) {
    e.Report? && e.post == BrokeOff(false)
  }

  /** Whether a verdict is accounted for after an event, given whether the last one was before. */
  ghost predicate AccountsAs(c: Cell, id: JobId, e: Event, agents: Agents, after: Cell) {
    Accounted(after) <==> if Decides(c, id, e, agents) then !BreaksOff(e) else Accounted(c)
  }

  // ---- each step keeps the cell's invariant ----

  lemma ReportKeeps(c: Cell, agents: Agents, device: Device, exitCode: Option<int>, error: string,
                    findings: Findings, post: Post, now: real)
    requires CellInv(c)
    ensures
      var after := Reported(c, agents, device, exitCode, error, findings, post, now);
      && CellInv(after)
      && (Accounted(after) <==>
            if Settle(c.row, agents, device, exitCode, error, findings, now).Ok? then post != BrokeOff(false)
            else Accounted(c))
  {
    if Settle(c.row, agents, device, exitCode, error, findings, now).Ok? {
      ASettledReportKeeps(c, agents, device, exitCode, error, findings, post, now);
    }
  }

  lemma ASettledReportKeeps(c: Cell, agents: Agents, device: Device, exitCode: Option<int>, error: string,
                            findings: Findings, post: Post, now: real)
    requires CellInv(c) && Settle(c.row, agents, device, exitCode, error, findings, now).Ok?
    ensures
      var after := Reported(c, agents, device, exitCode, error, findings, post, now);
      CellInv(after) && (Accounted(after) <==> post != BrokeOff(false))
  {
    var settled := Settle(c.row, agents, device, exitCode, error, findings, now).value;
    var verdict := ReportVerdict(c.row, exitCode, error, findings);
    ASettledRowIsNew(c.row, agents, device, exitCode, error, findings, now);
    hide Settle, ReportVerdict, Lifecycle, StateFor;
    ANewVerdictIsTold(c, settled, verdict, post);
  }

  lemma ASettledRowIsNew(row: Job, agents: Agents, device: Device, exitCode: Option<int>, error: string,
                         findings: Findings, now: real)
    requires Lifecycle(row) && Settle(row, agents, device, exitCode, error, findings, now).Ok?
    ensures error != "" || exitCode.Some?
    ensures
      var settled := Settle(row, agents, device, exitCode, error, findings, now).value;
      && Lifecycle(settled) && settled.pendingStatus.None? && settled.statusSeq == row.statusSeq + 1
      && ReportVerdict(row, exitCode, error, findings).state == StateFor(settled)
  {
    hide BackoffSeconds, Spent;
  }

  lemma ANewVerdictIsTold(c: Cell, settled: Job, verdict: Verdict, post: Post)
    requires CellInv(c) && Lifecycle(settled) && settled.pendingStatus.None?
    requires settled.statusSeq == c.row.statusSeq + 1 && verdict.state == StateFor(settled)
    ensures
      var after := AfterPost(c, settled, verdict, post);
      CellInv(after) && (Accounted(after) <==> post != BrokeOff(false))
  {
    var wall := AfterPost(c, settled, verdict, post).wall;
    if post.Refused? {
      OwedIsAccounted(c, settled, verdict, wall);
    } else if Landed(post) {
      TellingIsAccounted(c, settled, verdict);
    } else {
      hide Lifecycle, StateFor;
    }
  }

  lemma OwedIsAccounted(c: Cell, settled: Job, verdict: Verdict, wall: seq<Posting>)
    requires CellInv(c) && Lifecycle(settled) && verdict.state == StateFor(settled)
    requires settled.statusSeq == c.row.statusSeq + 1
    requires wall == c.wall || wall == c.wall + [Posting(settled.statusSeq, verdict)]
    ensures
      var after := Cell(OweStatus(settled, verdict), c.hand, wall, Some(verdict));
      CellInv(after) && Accounted(after)
  {
    OwingKeepsTheStage(settled, verdict);
    hide Lifecycle, StateFor;
  }

  lemma OwingKeepsTheStage(settled: Job, verdict: Verdict)
    requires Lifecycle(settled)
    ensures Lifecycle(OweStatus(settled, verdict)) && StateFor(OweStatus(settled, verdict)) == StateFor(settled)
  {
  }

  lemma TellingIsAccounted(c: Cell, settled: Job, verdict: Verdict)
    requires CellInv(c) && Lifecycle(settled) && verdict.state == StateFor(settled)
    requires settled.pendingStatus.None? && settled.statusSeq == c.row.statusSeq + 1
    ensures
      var after := Cell(settled, c.hand, c.wall + [Posting(settled.statusSeq, verdict)], Some(verdict));
      CellInv(after) && Accounted(after)
  {
    hide Lifecycle, StateFor;
  }

  lemma ReclaimKeeps(c: Cell, agents: Agents, now: real)
    requires CellInv(c)
    ensures
      var after := Reclaimed(c, agents, now);
      CellInv(after) && (Accounted(after) <==> Accounted(c) || Lapsed(c.row, agents, now))
  {
  }

  lemma ClaimKeeps(c: Cell, device: Device, lease: real, now: real)
    requires CellInv(c) && c.row.status == Pending
    ensures CellInv(Claimed(c, device, lease, now))
    ensures Accounted(Claimed(c, device, lease, now)) <==> Accounted(c)
  {
  }

  lemma RenewKeeps(c: Cell, agents: Agents, device: Device, lease: real, now: real)
    requires CellInv(c)
    ensures CellInv(c.(row := Renew(c.row, agents, device, lease, now)))
    ensures Accounted(c.(row := Renew(c.row, agents, device, lease, now))) <==> Accounted(c)
  {
  }

  lemma TakeKeeps(c: Cell)
    requires CellInv(c)
    ensures CellInv(Taken(c)) && (Accounted(Taken(c)) <==> Accounted(c))
  {
    var after := Taken(c);
    if c.row.pendingStatus.Some? {
      var i := |c.hand|;
      assert after.hand[i].seqNo == after.row.statusSeq && !after.hand[i].posted;
    }
  }

  lemma PostKeeps(c: Cell, k: nat, post: Post)
    requires CellInv(c)
    ensures CellInv(Posted(c, k, post)) && (Accounted(Posted(c, k, post)) <==> Accounted(c))
  {
    if k < |c.hand| && !c.hand[k].posted {
      if c.row.statusSeq != c.hand[k].seqNo {
        AStalePostKeeps(c, k, post);
      } else if post.Told? {
        ADeliveredPostKeeps(c, k);
      } else {
        AFailedPostKeeps(c, k, post);
      }
    }
  }

  lemma AStalePostKeeps(c: Cell, k: nat, post: Post)
    requires CellInv(c) && k < |c.hand| && !c.hand[k].posted && c.row.statusSeq != c.hand[k].seqNo
    ensures CellInv(Posted(c, k, post)) && (Accounted(Posted(c, k, post)) <==> Accounted(c))
  {
    DroppingKeepsInHand(c, k);
  }

  lemma ADeliveredPostKeeps(c: Cell, k: nat)
    requires CellInv(c) && k < |c.hand| && !c.hand[k].posted && c.row.statusSeq == c.hand[k].seqNo
    ensures CellInv(Posted(c, k, Told)) && Accounted(c) && Accounted(Posted(c, k, Told))
  {
    var landed := c.(wall := c.wall + [Posting(c.hand[k].seqNo, c.hand[k].verdict)]);
    LandingKeeps(c, k);
    APostIsPutBack(c, k);
    AToldVerdictIsMarked(landed, k);
    hide CellInv, Accounted;
  }

  lemma AToldVerdictIsMarked(c: Cell, k: nat)
    requires CellInv(c) && k < |c.hand| && c.row.statusSeq == c.hand[k].seqNo && Published(c)
    ensures
      var after := c.(hand := c.hand[k := c.hand[k].(posted := true)]);
      CellInv(after) && Accounted(after)
  {
    hide Lifecycle, InOrder;
  }

  lemma AFailedPostKeeps(c: Cell, k: nat, post: Post)
    requires CellInv(c) && k < |c.hand| && !c.hand[k].posted && c.row.statusSeq == c.hand[k].seqNo && !post.Told?
    ensures CellInv(Posted(c, k, post)) && Accounted(c) && Accounted(Posted(c, k, post))
  {
    APostIsPutBack(c, k);
    if post.landed {
      LandingKeeps(c, k);
      APostIsPutBack(c.(wall := c.wall + [Posting(c.hand[k].seqNo, c.hand[k].verdict)]), k);
    }
    hide CellInv, Accounted;
  }

  lemma APostIsPutBack(c: Cell, k: nat)
    requires CellInv(c) && k < |c.hand| && !c.hand[k].posted && c.row.statusSeq == c.hand[k].seqNo
    ensures CellInv(Posted(c, k, Refused(false))) && Accounted(c) && Accounted(Posted(c, k, Refused(false)))
  {
  }

  lemma LandingKeeps(c: Cell, k: nat)
    requires CellInv(c) && k < |c.hand| && !c.hand[k].posted && c.row.statusSeq == c.hand[k].seqNo
    ensures CellInv(c.(wall := c.wall + [Posting(c.hand[k].seqNo, c.hand[k].verdict)]))
  {
  }

  lemma CheckKeeps(c: Cell, k: nat, closed: bool)
    requires CellInv(c)
    ensures CellInv(Checked(c, k, closed)) && (Accounted(Checked(c, k, closed)) <==> Accounted(c))
  {
    if k < |c.hand| && c.hand[k].posted {
      if closed { AClosedCheckKeeps(c, k); } else { AFailedCheckKeeps(c, k); }
    }
  }

  lemma AClosedCheckKeeps(c: Cell, k: nat)
    requires CellInv(c) && k < |c.hand| && c.hand[k].posted
    ensures CellInv(Checked(c, k, true)) && (Accounted(Checked(c, k, true)) <==> Accounted(c))
  {
    DroppingKeepsInHand(c, k);
  }

  lemma AFailedCheckKeeps(c: Cell, k: nat)
    requires CellInv(c) && k < |c.hand| && c.hand[k].posted
    ensures CellInv(Checked(c, k, false)) && (Accounted(Checked(c, k, false)) <==> Accounted(c))
  {
    if c.row.pendingStatus.None? && c.row.statusSeq == c.hand[k].seqNo {
      ARefusedCheckOwesAgain(c, k);
    } else {
      AClosedCheckKeeps(c, k);
    }
    hide CellInv, Accounted;
  }

  lemma ARefusedCheckOwesAgain(c: Cell, k: nat)
    requires CellInv(c) && k < |c.hand| && c.hand[k].posted
    requires c.row.pendingStatus.None? && c.row.statusSeq == c.hand[k].seqNo
    ensures CellInv(Checked(c, k, false)) && Accounted(Checked(c, k, false)) && Accounted(c)
  {
    hide InOrder;
  }

  /** Dropping a stale or a posted verdict leaves the newest one in hand. */
  lemma DroppingKeepsInHand(c: Cell, k: nat)
    requires k < |c.hand| && (c.hand[k].posted || c.hand[k].seqNo != c.row.statusSeq)
    ensures InHand(c) <==> InHand(c.(hand := Without(c.hand, k)))
  {
    var fewer := c.(hand := Without(c.hand, k));
    if InHand(fewer) {
      var i :| 0 <= i < |fewer.hand| && fewer.hand[i].seqNo == c.row.statusSeq && !fewer.hand[i].posted;
      assert c.hand[if i < k then i else i + 1] == fewer.hand[i];
    }
    if InHand(c) {
      var i :| 0 <= i < |c.hand| && c.hand[i].seqNo == c.row.statusSeq && !c.hand[i].posted;
      var at := if i < k then i else i - 1;
      assert Without(c.hand, k)[at] == c.hand[i];
    }
  }

  lemma DrainKeepsCell(c: Cell, id: JobId, e: Event, agents: Agents)
    requires CellInv(c) && (e.DrainTake? || e.DrainPost? || e.CheckDone?)
    ensures
      var after := CellAfter(c, id, e, agents, None);
      CellInv(after) && AccountsAs(c, id, e, agents, after)
  {
    hide CellInv, Accounted, Posted, Checked, Taken, Settle;
    match e
    case DrainTake => TakeKeeps(c);
    case DrainPost(_, k, post) => PostKeeps(c, k, post);
    case CheckDone(_, k, closed) => CheckKeeps(c, k, closed);
  }

  lemma LeaseKeepsCell(c: Cell, id: JobId, e: Event, agents: Agents, picked: Option<JobId>)
    requires CellInv(c) && (e.Claim? || e.RenewLease?) && (picked == Some(id) ==> c.row.status == Pending)
    ensures
      var after := CellAfter(c, id, e, agents, picked);
      CellInv(after) && AccountsAs(c, id, e, agents, after)
  {
    if e.Claim? {
      if picked == Some(id) { ClaimKeeps(c, e.device, e.lease, e.now); }
    } else {
      RenewKeeps(c, agents, e.device, e.lease, e.now);
    }
    hide CellInv, Accounted, Claimed, Renew;
  }

  lemma DecisionKeepsCell(c: Cell, id: JobId, e: Event, agents: Agents)
    requires CellInv(c) && (e.Report? || e.Reclaim?)
    ensures
      var after := CellAfter(c, id, e, agents, None);
      CellInv(after) && AccountsAs(c, id, e, agents, after)
  {
    hide CellInv, Accounted, Reported, Reclaimed, Settle, Lapsed;
    match e
    case Report(_, device, exitCode, error, findings, post, now) =>
      ReportKeeps(c, agents, device, exitCode, error, findings, post, now);
    case Reclaim(now) => ReclaimKeeps(c, agents, now);
  }

  lemma StepKeepsCell(s: System, e: Event, id: JobId)
    requires Inv(s) && id in s.cells && !e.Enqueue? && !e.Heartbeat?
    ensures
      var after := CellAfter(s.cells[id], id, e, s.agents, Picked(s, e));
      CellInv(after) && AccountsAs(s.cells[id], id, e, s.agents, after)
  {
    var c := s.cells[id];
    assert CellInv(c);
    if Picked(s, e) == Some(id) {
      assert Eligible(Rows(s), id, e.offered, e.now, e.cap);
    }
    hide CellInv, Accounted, Inv, Picked, Eligible, Claimed, Renew, Posted, Checked, Taken, Reported, Reclaimed;
    if e.Claim? || e.RenewLease? {
      hide AccountsAs;
      LeaseKeepsCell(c, id, e, s.agents, Picked(s, e));
    } else if e.Report? || e.Reclaim? {
      hide AccountsAs;
      DecisionKeepsCell(c, id, e, s.agents);
    } else {
      hide AccountsAs;
      DrainKeepsCell(c, id, e, s.agents);
    }
  }

  /** What an event never touches: whose run this is and what it was queued for. */
  ghost predicate SameIdentity(before: Job, after: Job) {
    && before.repository == after.repository
    && before.labels == after.labels
    && before.createdAt == after.createdAt
    && before.delivery == after.delivery
  }

  lemma StepKeepsIdentity(c: Cell, id: JobId, e: Event, agents: Agents, picked: Option<JobId>)
    ensures SameIdentity(c.row, CellAfter(c, id, e, agents, picked).row)
  {
  }

  lemma EnqueueKeeps(s: System, e: Event)
    requires Inv(s) && e.Enqueue?
    ensures Inv(Next(s, e))
  {
    if Inserts(s, e) {
      var after := Next(s, e);
      forall id | id in after.cells ensures CellInv(after.cells[id]) {
        if id != e.id { assert after.cells[id] == s.cells[id]; }
      }
    }
  }

  lemma StepKeeps(s: System, e: Event)
    requires Inv(s)
    ensures Inv(Next(s, e))
  {
    if e.Enqueue? {
      EnqueueKeeps(s, e);
    } else if !e.Heartbeat? {
      var after := Next(s, e);
      forall id | id in s.cells
        ensures CellInv(after.cells[id]) && SameIdentity(s.cells[id].row, after.cells[id].row)
      {
        StepKeepsCell(s, e, id);
        StepKeepsIdentity(s.cells[id], id, e, s.agents, Picked(s, e));
      }
    }
  }

  /** Every state any run reaches keeps every cell's invariant. */
  lemma {:induction false} EveryRunKeepsTheInvariant(s: System, events: seq<Event>)
    requires Inv(s)
    ensures Inv(Run(s, events))
    decreases |events|
  {
    if events != [] {
      StepKeeps(s, events[0]);
      EveryRunKeepsTheInvariant(Next(s, events[0]), events[1..]);
    }
  }
}
