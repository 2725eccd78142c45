/**
 * What one job's commit sees: how often a number is told, and what becomes of the order of numbers
 * when a request that was given up on lands later all the same.
 */
module CommitHistory {
  import opened Prelude
  import opened JobRecord
  import opened Leases
  import opened Scheduling
  import opened VerdictLedger
  import opened QueueGuarantees

  // ---- how often one number is told ----

  function CountOf(wall: seq<Posting>, n: nat): nat {
    if wall == [] then 0
    else CountOf(wall[..|wall| - 1], n) + if wall[|wall| - 1].seqNo == n then 1 else 0
  }

  lemma OneMorePosting(wall: seq<Posting>, p: Posting, n: nat)
    ensures CountOf(wall + [p], n) == CountOf(wall, n) + if p.seqNo == n then 1 else 0
  {
    assert (wall + [p])[..|wall|] == wall;
  }

  lemma {:induction false} NoSuchNumber(wall: seq<Posting>, n: nat)
    requires forall i | 0 <= i < |wall| :: wall[i].seqNo != n
    ensures CountOf(wall, n) == 0
  {
    if wall != [] { NoSuchNumber(wall[..|wall| - 1], n); }
  }

  /** Whether the number may still be told: it is to come, it is owed, or a drain holds it unposted. */
  ghost predicate MayBeTold(c: Cell, n: nat) {
    || n > c.row.statusSeq
    || (n == c.row.statusSeq && c.row.pendingStatus.Some?)
    || exists i :: 0 <= i < |c.hand| && c.hand[i].seqNo == n && !c.hand[i].posted
  }

  /** A failed post of the number that landed all the same, or a refused check behind a post of it. */
  ghost predicate Repeats(c: Cell, id: JobId, e: Event, n: nat) {
    || (&& e.DrainPost? && e.id == id && e.k < |c.hand| && !c.hand[e.k].posted
        && c.hand[e.k].seqNo == n == c.row.statusSeq && !e.post.Told? && e.post.landed)
    || (e.CheckDone? && e.id == id && e.k < |c.hand| && c.hand[e.k].posted && c.hand[e.k].seqNo == n && !e.closed)
  }

  // How much of its one telling a number has used or still has, before an event or after it.
  ghost function Share(c: Cell, n: nat): nat {
    CountOf(c.wall, n) + if MayBeTold(c, n) then 1 else 0
  }

  ghost predicate NoGain(c: Cell, after: Cell, n: nat, repeats: bool) {
    Share(after, n) <= Share(c, n) + if repeats then 1 else 0
  }

  lemma ADecisionTellsOnce(c: Cell, id: JobId, e: Event, agents: Agents, n: nat)
    requires CellInv(c) && (e.Report? || e.Reclaim?)
    ensures NoGain(c, CellAfter(c, id, e, agents, None), n, false)
  {
    if n > c.row.statusSeq { NoSuchNumber(c.wall, n); }
    if e.Reclaim? {
      hide Lapsed, LostDescription, BackoffSeconds, CountOf;
    } else if e.id == id && Settle(c.row, agents, e.device, e.exitCode, e.error, e.findings, e.now).Ok? {
      AReportTellsOnce(c, agents, e, n);
    }
  }

  lemma AReportTellsOnce(c: Cell, agents: Agents, e: Event, n: nat)
    requires CellInv(c) && e.Report?
    requires Settle(c.row, agents, e.device, e.exitCode, e.error, e.findings, e.now).Ok?
    ensures NoGain(c, Reported(c, agents, e.device, e.exitCode, e.error, e.findings, e.post, e.now), n, false)
  {
    var settled := Settle(c.row, agents, e.device, e.exitCode, e.error, e.findings, e.now).value;
    var verdict := ReportVerdict(c.row, e.exitCode, e.error, e.findings);
    ASettledRowIsNew(c.row, agents, e.device, e.exitCode, e.error, e.findings, e.now);
    OneMorePosting(c.wall, Posting(settled.statusSeq, verdict), n);
    if n > c.row.statusSeq { NoSuchNumber(c.wall, n); }
    hide Settle, ReportVerdict, CountOf, Lifecycle, Accounted;
  }

  lemma ADrainTellsOnce(c: Cell, id: JobId, e: Event, agents: Agents, n: nat)
    requires CellInv(c) && (e.DrainTake? || e.DrainPost? || e.CheckDone?)
    ensures NoGain(c, CellAfter(c, id, e, agents, None), n, Repeats(c, id, e, n))
  {
    match e
    case DrainTake => hide CountOf, Accounted, Lifecycle;
    case DrainPost(job, k, post) =>
      if job == id && k < |c.hand| && !c.hand[k].posted { APostTellsOnce(c, id, e, n); }
    case CheckDone(job, k, closed) =>
      if job == id && k < |c.hand| && c.hand[k].posted { ACheckTellsNothing(c, id, e, n); }
  }

  /** What is left in hand without the place `k` was in hand before. */
  lemma HandWithout(c: Cell, k: nat, n: nat)
    requires k < |c.hand|
    ensures
      (exists i :: 0 <= i < |Without(c.hand, k)| && Without(c.hand, k)[i].seqNo == n && !Without(c.hand, k)[i].posted)
      ==> exists i :: 0 <= i < |c.hand| && i != k && c.hand[i].seqNo == n && !c.hand[i].posted
  {
    var fewer := Without(c.hand, k);
    if i: nat :| i < |fewer| && fewer[i].seqNo == n && !fewer[i].posted {
      assert c.hand[if i < k then i else i + 1] == fewer[i];
    }
  }

  lemma APostTellsOnce(c: Cell, id: JobId, e: Event, n: nat)
    requires CellInv(c) && e.DrainPost? && e.id == id && e.k < |c.hand| && !c.hand[e.k].posted
    ensures NoGain(c, Posted(c, e.k, e.post), n, Repeats(c, id, e, n))
  {
    var h := c.hand[e.k];
    HandWithout(c, e.k, n);
    OneMorePosting(c.wall, Posting(h.seqNo, h.verdict), n);
    assert MayBeTold(c, h.seqNo);
    hide CountOf, Accounted, Lifecycle, CopiesAreLatest, InOrder;
  }

  lemma ACheckTellsNothing(c: Cell, id: JobId, e: Event, n: nat)
    requires CellInv(c) && e.CheckDone? && e.id == id && e.k < |c.hand| && c.hand[e.k].posted
    ensures NoGain(c, Checked(c, e.k, e.closed), n, Repeats(c, id, e, n))
  {
    HandWithout(c, e.k, n);
    hide CountOf, Accounted, Lifecycle, CopiesAreLatest, InOrder;
  }

  lemma AStepTellsOnce(s: System, e: Event, id: JobId, n: nat)
    requires Inv(s) && id in s.cells
    ensures id in Next(s, e).cells
    ensures NoGain(s.cells[id], Next(s, e).cells[id], n, Repeats(s.cells[id], id, e, n))
  {
    var c := s.cells[id];
    assert CellInv(c);
    if e.Report? || e.Reclaim? {
      ADecisionTellsOnce(c, id, e, s.agents, n);
      hide Inv, CellInv, NoGain, Repeats, CellAfter;
      assert Next(s, e).cells[id] == CellAfter(c, id, e, s.agents, None);
    } else if e.DrainTake? || e.DrainPost? || e.CheckDone? {
      ADrainTellsOnce(c, id, e, s.agents, n);
      hide Inv, CellInv, NoGain, Repeats, CellAfter;
      assert Next(s, e).cells[id] == CellAfter(c, id, e, s.agents, None);
    } else {
      ALeaseTellsNothing(s, e, id, n);
      hide Inv, CellInv, NoGain, Repeats, Next;
    }
  }

  lemma ALeaseTellsNothing(s: System, e: Event, id: JobId, n: nat)
    requires id in s.cells && (e.Enqueue? || e.Heartbeat? || e.Claim? || e.RenewLease?)
    ensures id in Next(s, e).cells && NoGain(s.cells[id], Next(s, e).cells[id], n, Repeats(s.cells[id], id, e, n))
  {
    var c := s.cells[id];
    if e.Claim? || e.RenewLease? {
      var after := CellAfter(c, id, e, s.agents, Picked(s, e));
      assert Next(s, e).cells[id] == after;
      assert after.hand == c.hand && after.wall == c.wall;
      assert after.row.statusSeq == c.row.statusSeq && after.row.pendingStatus == c.row.pendingStatus;
      hide Next, CellAfter, Picked, CountOf;
    } else {
      assert Next(s, e).cells[id] == c;
    }
  }

  ghost function RepeatsIn(s: System, events: seq<Event>, id: JobId, n: nat): nat
    decreases |events|
  {
    if events == [] then 0
    else
      (if id in s.cells && Repeats(s.cells[id], id, events[0], n) then 1 else 0)
      + RepeatsIn(Next(s, events[0]), events[1..], id, n)
  }

  /**
   * Over any run one number of one job reaches the commit at most once, and once more for each
   * failed post of it that landed and each refused check behind it.
   */
  lemma {:induction false} ANumberIsToldOnceAndForEachRepeat(s: System, events: seq<Event>, id: JobId, n: nat)
    requires Inv(s)
    ensures
      var t := Run(s, events);
      id in t.cells ==>
        CountOf(t.cells[id].wall, n)
        <= (if id in s.cells then Share(s.cells[id], n) else 1) + RepeatsIn(s, events, id, n)
    decreases |events|
  {
    if events != [] {
      var mid := Next(s, events[0]);
      StepKeeps(s, events[0]);
      if id in s.cells {
        AStepTellsOnce(s, events[0], id, n);
      } else if id in mid.cells {
        ANewJobHasOneShare(s, events[0], id, n);
      }
      hide Inv, Next, CountOf, Repeats, Share;
      ANumberIsToldOnceAndForEachRepeat(mid, events[1..], id, n);
    } else if id in s.cells {
      ShareIsNoLess(s.cells[id], n);
    }
  }

  lemma ANewJobHasOneShare(s: System, e: Event, id: JobId, n: nat)
    requires id !in s.cells && id in Next(s, e).cells
    ensures Share(Next(s, e).cells[id], n) <= 1
  {
    assert Next(s, e).cells[id].wall == [];
  }

  lemma ShareIsNoLess(c: Cell, n: nat)
    ensures CountOf(c.wall, n) <= Share(c, n)
  {
  }

  // ---- how often one verdict is told, under whatever numbers ----

  /** Whether the newest verdict may still be told: it is owed, or a drain holds it unposted. */
  ghost predicate Untold(c: Cell) {
    c.row.pendingStatus.Some? || InHand(c)
  }

  /** A request that failed although it landed, of a report or of a drain, or a refused check behind a post. */
  ghost predicate Retells(c: Cell, id: JobId, e: Event, agents: Agents) {
    || (e.Report? && Decides(c, id, e, agents) && e.post == Refused(true))
    || Repeats(c, id, e, c.row.statusSeq)
  }

  // What the commit received, and one more while the newest verdict may still be told.
  ghost function Telling(c: Cell): nat {
    |c.wall| + if Untold(c) then 1 else 0
  }

  ghost function Once(holds: bool): nat {
    if holds then 1 else 0
  }

  // What an event adds to the commit is the newest verdict.
  ghost predicate AddsLatest(before: seq<Posting>, after: Cell) {
    && before <= after.wall
    && forall i | |before| <= i < |after.wall| :: Some(after.wall[i].verdict) == after.latest
  }

  lemma AReportStartsATelling(c: Cell, id: JobId, e: Event, agents: Agents)
    requires CellInv(c) && e.Report? && Decides(c, id, e, agents)
    ensures
      var after := CellAfter(c, id, e, agents, None);
      Telling(after) <= |c.wall| + 1 + Once(Retells(c, id, e, agents)) && AddsLatest(c.wall, after)
  {
    ASettledRowIsNew(c.row, agents, e.device, e.exitCode, e.error, e.findings, e.now);
    hide Settle, ReportVerdict, Accounted, Lifecycle, InOrder, Repeats;
  }

  lemma AReclaimStartsATelling(c: Cell, id: JobId, e: Event, agents: Agents)
    requires CellInv(c) && e.Reclaim? && Decides(c, id, e, agents)
    ensures
      var after := CellAfter(c, id, e, agents, None);
      Telling(after) <= |c.wall| + 1 + Once(Retells(c, id, e, agents)) && AddsLatest(c.wall, after)
  {
    hide Lapsed, LostDescription, BackoffSeconds, Accounted, Lifecycle, InOrder;
  }

  lemma APostIsOfTheTelling(c: Cell, id: JobId, e: Event, agents: Agents)
    requires CellInv(c) && e.DrainPost? && e.id == id
    ensures
      var after := Posted(c, e.k, e.post);
      && Telling(after) <= Telling(c) + Once(Retells(c, id, e, agents))
      && AddsLatest(c.wall, after) && after.latest == c.latest
  {
    hide Accounted, Lifecycle, InOrder;
    if e.k < |c.hand| && !c.hand[e.k].posted {
      HandWithout(c, e.k, c.row.statusSeq);
    }
  }

  lemma ACheckIsOfTheTelling(c: Cell, id: JobId, e: Event, agents: Agents)
    requires CellInv(c) && e.CheckDone? && e.id == id
    ensures
      var after := Checked(c, e.k, e.closed);
      && Telling(after) <= Telling(c) + Once(Retells(c, id, e, agents))
      && after.wall == c.wall && after.latest == c.latest
  {
    hide Accounted, Lifecycle, InOrder;
    if e.k < |c.hand| && c.hand[e.k].posted {
      HandWithout(c, e.k, c.row.statusSeq);
    }
  }

  lemma ATakeIsOfTheTelling(c: Cell)
    requires CellInv(c)
    ensures Telling(Taken(c)) <= Telling(c) && Taken(c).wall == c.wall && Taken(c).latest == c.latest
  {
    hide Accounted, Lifecycle, InOrder;
    if c.row.pendingStatus.None? { assert Taken(c) == c; }
  }

  // How an event that decides no verdict of the job leaves the telling of the newest one.
  ghost predicate KeepsTelling(c: Cell, id: JobId, e: Event, agents: Agents, after: Cell) {
    && Telling(after) <= Telling(c) + Once(Retells(c, id, e, agents))
    && AddsLatest(c.wall, after) && after.latest == c.latest
  }

  lemma AnUndecidingStepTells(s: System, e: Event, id: JobId)
    requires Inv(s) && id in s.cells && !Decides(s.cells[id], id, e, s.agents)
    ensures id in Next(s, e).cells
    ensures KeepsTelling(s.cells[id], id, e, s.agents, Next(s, e).cells[id])
  {
    var c := s.cells[id];
    assert CellInv(c);
    if e.DrainTake? || (e.DrainPost? && e.id == id) || (e.CheckDone? && e.id == id) {
      assert Next(s, e).cells[id] == CellAfter(c, id, e, s.agents, None);
      hide *;
      ADrainIsOfTheTelling(c, id, e, s.agents);
    } else {
      hide *;
      AnIdleStepTells(s, e, id);
      NothingIsToldAnew(c, id, e, s.agents, Next(s, e).cells[id]);
    }
  }

  lemma ADrainIsOfTheTelling(c: Cell, id: JobId, e: Event, agents: Agents)
    requires CellInv(c) && (e.DrainTake? || (e.DrainPost? && e.id == id) || (e.CheckDone? && e.id == id))
    ensures KeepsTelling(c, id, e, agents, CellAfter(c, id, e, agents, None))
  {
    if e.DrainTake? {
      ATakeIsOfTheTelling(c);
    } else if e.DrainPost? {
      APostIsOfTheTelling(c, id, e, agents);
    } else {
      ACheckIsOfTheTelling(c, id, e, agents);
    }
    hide CellInv, Untold, Retells, Posted, Checked, Taken;
  }

  lemma NothingIsToldAnew(c: Cell, id: JobId, e: Event, agents: Agents, after: Cell)
    requires after.wall == c.wall && after.hand == c.hand && after.latest == c.latest
    requires after.row.statusSeq == c.row.statusSeq && after.row.pendingStatus == c.row.pendingStatus
    ensures KeepsTelling(c, id, e, agents, after)
  {
    hide Retells;
  }

  /** Any other event leaves what was told, what is owed and what is in hand. */
  lemma AnIdleStepTells(s: System, e: Event, id: JobId)
    requires id in s.cells && !Decides(s.cells[id], id, e, s.agents)
    requires !e.DrainTake? && !(e.DrainPost? && e.id == id) && !(e.CheckDone? && e.id == id)
    ensures
      var c, t := s.cells[id], Next(s, e);
      && id in t.cells && t.cells[id].wall == c.wall && t.cells[id].hand == c.hand && t.cells[id].latest == c.latest
      && t.cells[id].row.statusSeq == c.row.statusSeq && t.cells[id].row.pendingStatus == c.row.pendingStatus
  {
    hide Picked, Spent, BackoffSeconds, LostDescription;
  }

  /** Whether no event of a run decides a verdict of the job. */
  ghost predicate DecidesNothing(s: System, events: seq<Event>, id: JobId)
    decreases |events|
  {
    events == [] ||
    (&& !(id in s.cells && Decides(s.cells[id], id, events[0], s.agents))
     && DecidesNothing(Next(s, events[0]), events[1..], id))
  }

  ghost function RetellsIn(s: System, events: seq<Event>, id: JobId): nat
    decreases |events|
  {
    if events == [] then 0
    else
      Once(id in s.cells && Retells(s.cells[id], id, events[0], s.agents))
      + RetellsIn(Next(s, events[0]), events[1..], id)
  }

  lemma {:induction false} TheTellingGoesOn(s: System, events: seq<Event>, id: JobId)
    requires Inv(s) && id in s.cells && DecidesNothing(s, events, id)
    ensures
      var t := Run(s, events);
      && id in t.cells && Telling(t.cells[id]) <= Telling(s.cells[id]) + RetellsIn(s, events, id)
      && AddsLatest(s.cells[id].wall, t.cells[id]) && t.cells[id].latest == s.cells[id].latest
    decreases |events|
  {
    if events != [] {
      StepKeeps(s, events[0]);
      AnUndecidingStepTells(s, events[0], id);
      hide Inv, Next, Decides, Retells, Telling;
      TheTellingGoesOn(Next(s, events[0]), events[1..], id);
    }
  }

  /**
   * From the event that decides a verdict until the next one of its job, the commit receives that
   * verdict and nothing else, at most once, and once more for each request that failed although it
   * landed and each refused check behind a post.
   */
  lemma AVerdictIsToldOnceAndForEachRepeat(s: System, e: Event, events: seq<Event>, id: JobId)
    requires Inv(s) && id in s.cells && Decides(s.cells[id], id, e, s.agents) && DecidesNothing(Next(s, e), events, id)
    ensures
      var t := Run(s, [e] + events);
      && id in t.cells && |t.cells[id].wall| <= |s.cells[id].wall| + 1 + RetellsIn(s, [e] + events, id)
      && AddsLatest(s.cells[id].wall, t.cells[id]) && t.cells[id].latest == Next(s, e).cells[id].latest
  {
    var c := s.cells[id];
    assert CellInv(c);
    assert e.Report? || e.Reclaim?;
    assert id in Next(s, e).cells && Next(s, e).cells[id] == CellAfter(c, id, e, s.agents, None);
    StepKeeps(s, e);
    hide *;
    if e.Report? { AReportStartsATelling(c, id, e, s.agents); } else { AReclaimStartsATelling(c, id, e, s.agents); }
    TheTellingGoesOn(Next(s, e), events, id);
    OneThenMore(s, e, events, id);
    var t := Run(Next(s, e), events).cells[id];
    AddsInTwo(c.wall, Next(s, e).cells[id], t);
    TellingCountsTheWall(t);
  }

  lemma OneThenMore(s: System, e: Event, events: seq<Event>, id: JobId)
    requires id in s.cells
    ensures Run(s, [e] + events) == Run(Next(s, e), events)
    ensures RetellsIn(s, [e] + events, id)
         == Once(Retells(s.cells[id], id, e, s.agents)) + RetellsIn(Next(s, e), events, id)
  {
    hide Next, Retells;
    assert ([e] + events)[1..] == events;
  }

  lemma AddsInTwo(wall: seq<Posting>, c: Cell, after: Cell)
    requires AddsLatest(wall, c) && AddsLatest(c.wall, after) && after.latest == c.latest
    ensures AddsLatest(wall, after)
  {
    forall i | |wall| <= i < |after.wall| ensures Some(after.wall[i].verdict) == after.latest {
      if i < |c.wall| { assert after.wall[i] == c.wall[i]; }
    }
  }

  lemma TellingCountsTheWall(c: Cell)
    ensures |c.wall| <= Telling(c)
  {
  }

  /** A report refused although it landed is told again, under the next number. */
  lemma AVerdictMayBeToldTwice(id: JobId, device: Device, exitCode: int, findings: Findings, lease: real)
    requires lease > 0.0
    ensures
      var events := [Enqueue(id, "", {}, None, 0.0), Claim(device, {}, lease, 0.0, None)]
                    + [Report(id, device, Some(exitCode), "", findings, Refused(true), 0.0), DrainTake,
                       DrainPost(id, 0, Told)];
      var t := Run(EMPTY, events);
      id in t.cells && t.cells[id].latest.Some?
      && t.cells[id].wall == [Posting(1, t.cells[id].latest.value), Posting(2, t.cells[id].latest.value)]
  {
    var claimed := [Enqueue(id, "", {}, None, 0.0), Claim(device, {}, lease, 0.0, None)];
    var report := Report(id, device, Some(exitCode), "", findings, Refused(true), 0.0);
    var start := FreshRun(id, device, lease);
    AFreshRunIsReached(id, device, lease);
    var c := start.cells[id];
    assert c.row.statusSeq == 0 && c.wall == [] && c.hand == [] && start.agents == map[];
    hide *;
    RunConcat(EMPTY, claimed, [report, DrainTake, DrainPost(id, 0, Told)]);
    RefusedAndTold(c, id, device, exitCode, findings);
    ThreeSteps(start, report, DrainTake, DrainPost(id, 0, Told), id);
  }

  lemma RefusedAndTold(c: Cell, id: JobId, device: Device, exitCode: int, findings: Findings)
    requires HoldsLease(c.row, map[], device, 0.0) && c.row.statusSeq == 0 && c.wall == [] && c.hand == []
    ensures
      var report := Report(id, device, Some(exitCode), "", findings, Refused(true), 0.0);
      var refused := CellAfter(c, id, report, map[], None);
      var told := CellAfter(CellAfter(refused, id, DrainTake, map[], None), id, DrainPost(id, 0, Told), map[], None);
      && told.latest.Some?
      && told.wall == [Posting(1, told.latest.value), Posting(2, told.latest.value)]
  {
    var report := Report(id, device, Some(exitCode), "", findings, Refused(true), 0.0);
    var refused := CellAfter(c, id, report, map[], None);
    var verdict := ReportVerdict(c.row, Some(exitCode), "", findings);
    assert refused.row.statusSeq == 2 && refused.row.pendingStatus == Some(verdict);
    assert refused.wall == [Posting(1, verdict)] && refused.hand == [] && refused.latest == Some(verdict);
    hide Settle, ReportVerdict;
    var taken := Taken(refused);
    assert taken.hand == [Held(verdict, 2, false)];
    assert Posted(taken, 0, Told).wall == [Posting(1, verdict)] + [Posting(2, verdict)];
  }

  lemma ThreeSteps(s: System, a: Event, b: Event, d: Event, id: JobId)
    requires id in s.cells && forall e | e in [a, b, d] :: !e.Enqueue? && !e.Heartbeat? && !e.Claim?
    ensures
      var t := Run(s, [a, b, d]);
      && id in t.cells
      && t.cells[id]
         == CellAfter(CellAfter(CellAfter(s.cells[id], id, a, s.agents, None), id, b, s.agents, None), id, d, s.agents,
                      None)
  {
    assert a in [a, b, d] && b in [a, b, d] && d in [a, b, d];
    hide *;
    OneStep(s, a, id);
    OneStep(Next(s, a), b, id);
    OneStep(Next(Next(s, a), b), d, id);
    RunOfThree(s, a, b, d);
  }

  lemma OneStep(s: System, e: Event, id: JobId)
    requires id in s.cells && !e.Enqueue? && !e.Heartbeat? && !e.Claim?
    ensures
      && id in Next(s, e).cells && Next(s, e).agents == s.agents
      && Next(s, e).cells[id] == CellAfter(s.cells[id], id, e, s.agents, None)
  {
    hide CellAfter;
  }

  lemma RunOfThree(s: System, a: Event, b: Event, d: Event)
    ensures Run(s, [a, b, d]) == Next(Next(Next(s, a), b), d)
  {
    hide Next;
    assert [a, b, d][1..] == [b, d] && [b, d][1..] == [d] && [d][1..] == [];
    assert Run(s, [a, b, d]) == Run(Next(s, a), [b, d]) == Run(Next(Next(s, a), b), [d]);
  }

  // ---- requests that land late ----

  // The queue, the failed requests of one job that may yet land, and what its commit has received.
  datatype Commit = Commit(system: System, late: seq<Posting>, history: seq<Posting>)

  // The machine takes a step, or the request at a place in `late` lands.
  datatype Step = Machine(e: Event) | Land(k: nat)

  /** What a machine step adds to the job's wall. */
  function Added(before: seq<Posting>, after: seq<Posting>): seq<Posting> {
    if |before| <= |after| then after[|before|..] else []
  }

  /** The request a machine step gave up on, if it made one that did not land. */
  ghost function GivenUp(s: System, id: JobId, e: Event): seq<Posting> {
    if id !in s.cells then []
    else
      var c := s.cells[id];
      if e.Report? && e.id == id && !Landed(e.post)
         && Settle(c.row, s.agents, e.device, e.exitCode, e.error, e.findings, e.now).Ok?
      then [Posting(c.row.statusSeq + 1, ReportVerdict(c.row, e.exitCode, e.error, e.findings))]
      else if e.DrainPost? && e.id == id && !Landed(e.post) && e.k < |c.hand| && !c.hand[e.k].posted
              && c.hand[e.k].seqNo == c.row.statusSeq
      then [Posting(c.hand[e.k].seqNo, c.hand[e.k].verdict)]
      else []
  }

  function WallOf(s: System, id: JobId): seq<Posting> {
    if id in s.cells then s.cells[id].wall else []
  }

  function NumberOf(s: System, id: JobId): nat {
    if id in s.cells then s.cells[id].row.statusSeq else 0
  }

  ghost function After(w: Commit, id: JobId, step: Step): Commit {
    match step
    case Machine(e) =>
      var t := Next(w.system, e);
      Commit(t, w.late + GivenUp(w.system, id, e), w.history + Added(WallOf(w.system, id), WallOf(t, id)))
    case Land(k) =>
      if k < |w.late| then w.(late := Without(w.late, k), history := w.history + [w.late[k]]) else w
  }

  ghost function Walk(w: Commit, id: JobId, steps: seq<Step>): Commit
    decreases |steps|
  {
    if steps == [] then w else Walk(After(w, id, steps[0]), id, steps[1..])
  }

  ghost predicate Sorted(history: seq<Posting>) {
    forall i, j | 0 <= i <= j < |history| :: history[i].seqNo <= history[j].seqNo
  }

  /** Whether what lands is not numbered below what the commit received last. */
  predicate InTime(history: seq<Posting>, n: nat) {
    history == [] || history[|history| - 1].seqNo <= n
  }

  /** Whether every late request of a walk lands before a higher number has. */
  ghost predicate AllLandInTime(w: Commit, id: JobId, steps: seq<Step>)
    decreases |steps|
  {
    steps == [] ||
    ((steps[0].Land? && steps[0].k < |w.late| ==> InTime(w.history, w.late[steps[0].k].seqNo))
     && AllLandInTime(After(w, id, steps[0]), id, steps[1..]))
  }

  ghost predicate AllUpTo(posts: seq<Posting>, n: nat) {
    forall i | 0 <= i < |posts| :: posts[i].seqNo <= n
  }

  /** No number is ahead of the row's. */
  ghost predicate Behind(w: Commit, id: JobId) {
    AllUpTo(w.history, NumberOf(w.system, id)) && AllUpTo(w.late, NumberOf(w.system, id))
  }

  lemma UpToMore(some: seq<Posting>, added: seq<Posting>, n: nat, m: nat)
    requires AllUpTo(some, n) && n <= m && (added == [] || (|added| == 1 && added[0].seqNo <= m))
    ensures AllUpTo(some + added, m)
  {
  }

  lemma APostingIsNew(c: Cell, id: JobId, e: Event, agents: Agents, picked: Option<JobId>)
    requires CellInv(c)
    ensures
      var after := CellAfter(c, id, e, agents, picked);
      && c.row.statusSeq <= after.row.statusSeq
      && (after.wall == c.wall
          || exists p :: after.wall == c.wall + [p] && c.row.statusSeq <= p.seqNo <= after.row.statusSeq)
  {
    hide Accounted, OneCustodian, CopiesAreLatest, Lifecycle, BackoffSeconds, Spent, InOrder;
    if e.Report? && e.id == id && Settle(c.row, agents, e.device, e.exitCode, e.error, e.findings, e.now).Ok? {
      var after := CellAfter(c, id, e, agents, picked);
      if after.wall != c.wall { assert after.wall == c.wall + [after.wall[|c.wall|]]; }
    } else if e.DrainPost? && e.id == id {
      var after := CellAfter(c, id, e, agents, picked);
      if after.wall != c.wall { assert after.wall == c.wall + [after.wall[|c.wall|]]; }
    }
  }

  /** A machine step adds at most one number, not below the row's before it nor above the row's after. */
  lemma AMachineStepIsInTime(w: Commit, id: JobId, e: Event)
    requires Inv(w.system) && Behind(w, id)
    ensures Behind(After(w, id, Machine(e)), id)
    ensures
      var added := Added(WallOf(w.system, id), WallOf(Next(w.system, e), id));
      added == [] || (|added| == 1 && added[0].seqNo >= NumberOf(w.system, id))
  {
    var s, t := w.system, Next(w.system, e);
    NumbersAdded(s, id, e);
    hide Inv, Picked, Next, GivenUp, Added, AllUpTo;
    UpToMore(w.history, Added(WallOf(s, id), WallOf(t, id)), NumberOf(s, id), NumberOf(t, id));
    UpToMore(w.late, GivenUp(s, id, e), NumberOf(s, id), NumberOf(t, id));
  }

  lemma NumbersAdded(s: System, id: JobId, e: Event)
    requires Inv(s)
    ensures
      var t := Next(s, e);
      var added, given := Added(WallOf(s, id), WallOf(t, id)), GivenUp(s, id, e);
      && NumberOf(s, id) <= NumberOf(t, id)
      && (added == [] || (|added| == 1 && NumberOf(s, id) <= added[0].seqNo <= NumberOf(t, id)))
      && (given == [] || (|given| == 1 && given[0].seqNo <= NumberOf(t, id)))
  {
    if id in s.cells {
      GivenUpIsNotAhead(s, id, e);
      hide GivenUp;
      if !e.Enqueue? && !e.Heartbeat? {
        var c := s.cells[id];
        assert CellInv(c);
        APostingIsNew(c, id, e, s.agents, Picked(s, e));
        hide Inv, CellInv, CellAfter, Picked;
      }
    }
  }

  lemma GivenUpIsNotAhead(s: System, id: JobId, e: Event)
    requires id in s.cells
    ensures
      var given := GivenUp(s, id, e);
      |given| <= 1 && (given != [] ==> given[0].seqNo <= NumberOf(Next(s, e), id))
  {
    var c := s.cells[id];
    if e.Report? || e.DrainPost? {
      assert Next(s, e).cells[id] == CellAfter(c, id, e, s.agents, None);
      hide Next, Picked, BackoffSeconds, Spent;
    }
  }

  lemma SortedWithOneMore(history: seq<Posting>, p: Posting)
    requires Sorted(history)
    ensures Sorted(history + [p]) <==> InTime(history, p.seqNo)
  {
    if history != [] {
      var more, n := history + [p], |history|;
      assert more[n - 1] == history[n - 1] && more[n] == p;
      assert forall i | 0 <= i < n :: more[i] == history[i] && history[i].seqNo <= history[n - 1].seqNo;
    }
  }

  lemma {:induction false} WalksOnlyAppend(w: Commit, id: JobId, steps: seq<Step>)
    ensures w.history <= Walk(w, id, steps).history
    decreases |steps|
  {
    hide Next, GivenUp;
    if steps != [] { WalksOnlyAppend(After(w, id, steps[0]), id, steps[1..]); }
  }

  lemma APrefixIsSorted(first: seq<Posting>, whole: seq<Posting>)
    requires first <= whole && Sorted(whole)
    ensures Sorted(first)
  {
    assert forall i | 0 <= i < |first| :: first[i] == whole[i];
  }

  /** One step keeps the history in order exactly when it is not a request landing too late. */
  lemma AStepKeepsTheOrder(w: Commit, id: JobId, step: Step)
    requires Inv(w.system) && Behind(w, id) && Sorted(w.history)
    ensures Inv(After(w, id, step).system) && Behind(After(w, id, step), id)
    ensures Sorted(After(w, id, step).history) <==>
            (step.Land? && step.k < |w.late| ==> InTime(w.history, w.late[step.k].seqNo))
  {
    match step
    case Machine(e) =>
      hide *;
      AMachineStepKeepsTheOrder(w, id, e);
    case Land(k) =>
      if k < |w.late| { SortedWithOneMore(w.history, w.late[k]); }
      ALandingIsBehind(w, id, k);
      hide Sorted, AllUpTo;
  }

  lemma ALandingIsBehind(w: Commit, id: JobId, k: nat)
    requires Behind(w, id)
    ensures Behind(After(w, id, Land(k)), id) && After(w, id, Land(k)).system == w.system
  {
  }

  lemma AMachineStepKeepsTheOrder(w: Commit, id: JobId, e: Event)
    requires Inv(w.system) && Behind(w, id) && Sorted(w.history)
    ensures
      var after := After(w, id, Machine(e));
      Inv(after.system) && Behind(after, id) && Sorted(after.history)
  {
    StepKeeps(w.system, e);
    AMachineStepIsInTime(w, id, e);
    var added := Added(WallOf(w.system, id), WallOf(Next(w.system, e), id));
    ItIsInTime(w, id, added);
    hide Inv, Next, GivenUp, Added, Sorted, AllUpTo;
    if added == [] {
      assert w.history + [] == w.history;
    } else {
      assert added == [added[0]];
      SortedWithOneMore(w.history, added[0]);
    }
  }

  lemma ItIsInTime(w: Commit, id: JobId, added: seq<Posting>)
    requires Behind(w, id) && (added != [] ==> added[0].seqNo >= NumberOf(w.system, id))
    ensures added != [] ==> InTime(w.history, added[0].seqNo)
  {
  }

  /**
   * With requests that may land late, the numbers a job's commit receives never decrease if and
   * only if each late request lands before a higher number has: no step of the queue itself ever
   * breaks the order.
   */
  lemma {:induction false} TheOrderHoldsExactlyWhenAllLandInTime(w: Commit, id: JobId, steps: seq<Step>)
    requires Inv(w.system) && Behind(w, id) && Sorted(w.history)
    ensures Sorted(Walk(w, id, steps).history) <==> AllLandInTime(w, id, steps)
    decreases |steps|
  {
    if steps != [] {
      var next := After(w, id, steps[0]);
      AStepKeepsTheOrder(w, id, steps[0]);
      WalksOnlyAppend(next, id, steps[1..]);
      hide Inv, Behind, Sorted, After;
      if Sorted(next.history) {
        TheOrderHoldsExactlyWhenAllLandInTime(next, id, steps[1..]);
      } else if Sorted(Walk(next, id, steps[1..]).history) {
        APrefixIsSorted(next.history, Walk(next, id, steps[1..]).history);
      }
    }
  }

  const NOTHING_SENT := Commit(EMPTY, [], [])

  lemma TheEmptyCommitIsInOrder(id: JobId)
    ensures Inv(NOTHING_SENT.system) && Behind(NOTHING_SENT, id) && Sorted(NOTHING_SENT.history)
  {
    TheEmptyQueueIsSound();
  }

  lemma WalkOn(w: Commit, id: JobId, step: Step, rest: seq<Step>)
    ensures Walk(w, id, [step] + rest) == Walk(After(w, id, step), id, rest)
  {
    hide After;
    assert ([step] + rest)[1..] == rest;
  }

  // The job of a fresh run whose device's error was reported, and its status given up on.
  function GivenBack(id: JobId, device: Device, error: string, lease: real): Cell {
    var row := FreshRun(id, device, lease).cells[id].row;
    var told := Verdict(PendingState, LostRetrying(2, error));
    Cell(Release(row.(statusSeq := 1), 0.0, error, None), [], [], Some(told))
  }

  lemma AnErrorIsGivenUpOn(id: JobId, device: Device, error: string, findings: Findings, lease: real)
    requires lease > 0.0 && error != ""
    ensures
      var e := Report(id, device, None, error, findings, BrokeOff(false), 0.0);
      var told := Verdict(PendingState, LostRetrying(2, error));
      && After(Commit(FreshRun(id, device, lease), [], []), id, Machine(e))
         == Commit(System(map[id := GivenBack(id, device, error, lease)], map[]), [Posting(1, told)], [])
  {
    var e := Report(id, device, None, error, findings, BrokeOff(false), 0.0);
    var start := FreshRun(id, device, lease);
    AFreshRunIsReached(id, device, lease);
    assert CellAfter(start.cells[id], id, e, start.agents, None) == GivenBack(id, device, error, lease);
    hide CellAfter;
    assert Next(start, e).cells == map[id := GivenBack(id, device, error, lease)];
  }

  lemma ItIsClaimedAgain(id: JobId, device: Device, other: Device, error: string, lease: real, late: seq<Posting>)
    requires lease > 0.0
    ensures
      var c, e := GivenBack(id, device, error, lease), Claim(other, {}, lease, 30.0, None);
      After(Commit(System(map[id := c], map[]), late, []), id, Machine(e))
      == Commit(System(map[id := Claimed(c, other, lease, 30.0)], map[]), late, [])
  {
    var c, e := GivenBack(id, device, error, lease), Claim(other, {}, lease, 30.0, None);
    var s := System(map[id := c], map[]);
    assert BackoffSeconds(1) == 30.0;
    AloneItIsClaimed(s, id, e);
    hide Next, Claimed;
    assert late + [] == late;
  }

  lemma ItsSuccessIsTold(id: JobId, c: Cell, device: Device, findings: Findings, late: seq<Posting>)
    requires HoldsLease(c.row, map[], device, 30.0) && c.wall == []
    ensures
      var e := Report(id, device, Some(0), "", findings, Told, 30.0);
      var w := After(Commit(System(map[id := c], map[]), late, []), id, Machine(e));
      && w.late == late && w.history == [Posting(c.row.statusSeq + 1, Verdict(SuccessState, Passed))]
      && id in w.system.cells && w.system.cells[id].row.status.Success?
  {
    var e := Report(id, device, Some(0), "", findings, Told, 30.0);
    var s := System(map[id := c], map[]);
    var after := CellAfter(c, id, e, s.agents, None);
    assert after.row.status.Success? && after.wall == [Posting(c.row.statusSeq + 1, Verdict(SuccessState, Passed))];
    hide CellAfter;
    assert Next(s, e).cells[id] == after;
    assert late + [] == late;
  }

  lemma TwoMachineSteps(id: JobId, a: Event, b: Event)
    requires id !in Next(EMPTY, a).cells || Next(EMPTY, a).cells[id].wall == []
    requires id !in Run(EMPTY, [a, b]).cells || Run(EMPTY, [a, b]).cells[id].wall == []
    requires a.Enqueue? && b.Claim?
    ensures After(After(NOTHING_SENT, id, Machine(a)), id, Machine(b)) == Commit(Run(EMPTY, [a, b]), [], [])
  {
    hide Next;
    assert [a, b][1..] == [b] && [b][1..] == [];
    assert Run(EMPTY, [a, b]) == Run(Next(EMPTY, a), [b]) == Run(Next(Next(EMPTY, a), b), []);
  }

  /**
   * A device's error whose status was given up on may land after the success of the next attempt:
   * from the empty queue the commit is left with the older status last.
   */
  lemma ALateRequestMayLandOnANewerOne(id: JobId, device: Device, other: Device, error: string, findings: Findings,
                                       lease: real)
    requires lease > 0.0 && error != ""
    ensures
      var steps := [Machine(Enqueue(id, "", {}, None, 0.0)), Machine(Claim(device, {}, lease, 0.0, None)),
                    Machine(Report(id, device, None, error, findings, BrokeOff(false), 0.0)),
                    Machine(Claim(other, {}, lease, 30.0, None)),
                    Machine(Report(id, other, Some(0), "", findings, Told, 30.0)), Land(0)];
      var w, told := Walk(NOTHING_SENT, id, steps), Verdict(PendingState, LostRetrying(2, error));
      && w.history == [Posting(2, Verdict(SuccessState, Passed)), Posting(1, told)] && !Sorted(w.history)
      && id in w.system.cells && w.system.cells[id].row.status.Success?
  {
    var enqueue, claim := Enqueue(id, "", {}, None, 0.0), Claim(device, {}, lease, 0.0, None);
    var lost, again := Report(id, device, None, error, findings, BrokeOff(false), 0.0),
                       Claim(other, {}, lease, 30.0, None);
    var passed, told := Report(id, other, Some(0), "", findings, Told, 30.0),
                        Verdict(PendingState, LostRetrying(2, error));
    var given := GivenBack(id, device, error, lease);
    var claimed := Claimed(given, other, lease, 30.0);
    AFreshRunIsReached(id, device, lease);
    TheFirstOfItsQueue(id, "");
    TwoMachineSteps(id, enqueue, claim);
    AnErrorIsGivenUpOn(id, device, error, findings, lease);
    ItIsClaimedAgain(id, device, other, error, lease, [Posting(1, told)]);
    assert HoldsLease(claimed.row, map[], other, 30.0) && claimed.row.statusSeq == 1 && claimed.wall == [];
    ItsSuccessIsTold(id, claimed, other, findings, [Posting(1, told)]);
    hide *;
    var w2 := After(After(NOTHING_SENT, id, Machine(enqueue)), id, Machine(claim));
    var w4 := After(After(w2, id, Machine(lost)), id, Machine(again));
    var w5 := After(w4, id, Machine(passed));
    ItLandsLast(w5, id, Posting(2, Verdict(SuccessState, Passed)), Posting(1, told));
    SixSteps(id, Machine(enqueue), Machine(claim), Machine(lost), Machine(again), Machine(passed), Land(0));
  }

  lemma ItLandsLast(w: Commit, id: JobId, newer: Posting, older: Posting)
    requires w.late == [older] && w.history == [newer] && older.seqNo < newer.seqNo
    ensures
      var after := After(w, id, Land(0));
      after.system == w.system && after.history == [newer, older] && !Sorted(after.history)
  {
    var history := [newer] + [older];
    assert history[0] == newer && history[1] == older;
  }

  lemma ThreeOn(w: Commit, id: JobId, a: Step, b: Step, c: Step, rest: seq<Step>)
    ensures Walk(w, id, [a] + ([b] + ([c] + rest))) == Walk(After(After(After(w, id, a), id, b), id, c), id, rest)
  {
    hide *;
    WalkOn(w, id, a, [b] + ([c] + rest));
    WalkOn(After(w, id, a), id, b, [c] + rest);
    WalkOn(After(After(w, id, a), id, b), id, c, rest);
  }

  lemma SixSteps(id: JobId, a: Step, b: Step, c: Step, d: Step, e: Step, f: Step)
    ensures
      var two := After(After(NOTHING_SENT, id, a), id, b);
      Walk(NOTHING_SENT, id, [a, b, c, d, e, f]) == After(After(After(After(two, id, c), id, d), id, e), id, f)
  {
    var second := [d] + ([e] + ([f] + []));
    assert [a, b, c, d, e, f] == [a] + ([b] + ([c] + second));
    hide *;
    ThreeOn(NOTHING_SENT, id, a, b, c, second);
    var w3 := After(After(After(NOTHING_SENT, id, a), id, b), id, c);
    ThreeOn(w3, id, d, e, f, []);
    WalkEnds(After(After(After(w3, id, d), id, e), id, f), id);
  }

  lemma WalkEnds(w: Commit, id: JobId)
    ensures Walk(w, id, []) == w
  {
  }

  // ---- what a drain's events come to ----

  /**
   * A drain's post of a verdict in hand reaches the commit exactly when its number is still the row's and
   * the request landed. The verdict then stays in hand as posted when it was told; otherwise it leaves the
   * hand, and goes back to a row that owes nothing when its number is still the row's.
   */
  lemma APostComesTo(s: System, id: JobId, k: nat, post: Post)
    requires id in s.cells && k < |s.cells[id].hand| && !s.cells[id].hand[k].posted
    ensures
      var t, c := Next(s, DrainPost(id, k, post)), s.cells[id];
      && t.cells.Keys == s.cells.Keys
      && (forall other | other in s.cells && other != id :: t.cells[other] == s.cells[other])
      && var after, h := t.cells[id], c.hand[k];
         var current := h.seqNo == c.row.statusSeq;
         && after.wall == c.wall + (if current && (post == Told || post in {Refused(true), BrokeOff(true)})
                                    then [Posting(h.seqNo, h.verdict)] else [])
         && (current && post == Told ==>
               after.row == c.row && after.hand == c.hand[k := Held(h.verdict, h.seqNo, true)])
         && (!current || post != Told ==> after.hand == c.hand[..k] + c.hand[k + 1..])
         && (current && post != Told ==>
               after.row.pendingStatus == if c.row.pendingStatus.None? then Some(h.verdict) else c.row.pendingStatus)
         && (!current ==> after.row == c.row)
         && after.row.statusSeq == c.row.statusSeq && after.latest == c.latest
  {
    var c := s.cells[id];
    assert c.wall + [] == c.wall;
    assert Next(s, DrainPost(id, k, post)).cells[id] == Posted(c, k, post);
    hide Next;
  }

  /** The check behind a post takes the verdict out of hand, and puts it back in its row only when refused. */
  lemma ACheckComesTo(s: System, id: JobId, k: nat, closed: bool)
    requires id in s.cells && k < |s.cells[id].hand| && s.cells[id].hand[k].posted
    ensures
      var t, c := Next(s, CheckDone(id, k, closed)), s.cells[id];
      && t.cells.Keys == s.cells.Keys
      && (forall other | other in s.cells && other != id :: t.cells[other] == s.cells[other])
      && var after, h := t.cells[id], c.hand[k];
         && after.wall == c.wall && after.latest == c.latest && after.hand == c.hand[..k] + c.hand[k + 1..]
         && after.row.statusSeq == c.row.statusSeq
         && after.row.pendingStatus == if !closed && h.seqNo == c.row.statusSeq && c.row.pendingStatus.None?
                                       then Some(h.verdict) else c.row.pendingStatus
  {
  }

  /** Taking puts every owed verdict in hand under its number, unposted, and leaves no row owing anything. */
  lemma ATakeComesTo(s: System)
    ensures
      var t := Next(s, DrainTake);
      && t.cells.Keys == s.cells.Keys
      && forall id | id in s.cells ::
           var c, after := s.cells[id], t.cells[id];
           && after.row.pendingStatus.None? && after.row.statusSeq == c.row.statusSeq && after.wall == c.wall
           && after.latest == c.latest
           && after.hand == c.hand + if c.row.pendingStatus.Some?
                                     then [Held(c.row.pendingStatus.value, c.row.statusSeq, false)] else []
  {
    assert forall id | id in s.cells :: s.cells[id].hand + [] == s.cells[id].hand;
  }
}
