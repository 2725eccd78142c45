/**
 * The queue as the broker drives it: one object whose methods rewrite the rows of its table.
 * Each method is one event of the machine in VerdictLedger, or a run of events.
 */
module JobStore {
  import opened Prelude
  import opened JobRecord
  import opened Leases
  import opened Scheduling
  import opened VerdictLedger

  // What the rows cannot show, kept for each job: see VerdictLedger.Cell.
  datatype Books = Books(hand: seq<Held>, wall: seq<Posting>, latest: Option<Verdict>)

  // A verdict taken out of its row, as a drain carries it.
  datatype Owed = Owed(id: JobId, verdict: Verdict, seqNo: nat)

  // How GitHub answers a drain's post, and then the check run that follows an accepted one. A post
  // that failed may still have reached the commit.
  datatype Reply = PostFailed(landed: bool) | PostedCheckRefused | PostedCheckClosed

  // What a report is answered: a refusal, the recorded run, or nothing when its post broke off.
  datatype ReportAnswer = Denied(why: Refusal) | Recorded | Raised

  datatype BadClaim = LeaseNotPositive | CapNotPositive

  datatype BadEnqueue = Clashes

  predicate Delivered(jobs: Table, delivery: Option<string>) {
    exists other | other in jobs :: jobs[other].delivery == delivery
  }

  /** Whether the table takes a row: its id is new, and so is its delivery if it has one. */
  predicate Queues(jobs: Table, id: JobId, delivery: Option<string>) {
    id !in jobs && (delivery.None? || !Delivered(jobs, delivery))
  }

  /** A job's cell, from its row and its books. */
  function CellOf(row: Job, book: Books): Cell {
    Cell(row, book.hand, book.wall, book.latest)
  }

  /** The machine state that rows and books stand for. */
  function SystemOf(jobs: Table, books: map<JobId, Books>, agents: Agents): (s: System)
    requires books.Keys == jobs.Keys
    ensures s.cells.Keys == jobs.Keys && s.agents == agents
    ensures forall id | id in jobs :: s.cells[id] == CellOf(jobs[id], books[id])
  {
    System(map id | id in jobs :: CellOf(jobs[id], books[id]), agents)
  }

  lemma OneRowChanges(jobs: Table, books: map<JobId, Books>, agents: Agents, id: JobId, row: Job, book: Books)
    requires books.Keys == jobs.Keys && id in jobs
    ensures
      var s := SystemOf(jobs, books, agents);
      SystemOf(jobs[id := row], books[id := book], agents) == s.(cells := s.cells[id := CellOf(row, book)])
  {
    var s := SystemOf(jobs, books, agents);
    assert SystemOf(jobs[id := row], books[id := book], agents).cells == s.cells[id := CellOf(row, book)];
  }

  lemma TheBookIsTheHand(jobs: Table, books: map<JobId, Books>, agents: Agents, id: JobId)
    requires books.Keys == jobs.Keys && id in jobs
    ensures id in SystemOf(jobs, books, agents).cells
    ensures SystemOf(jobs, books, agents).cells[id].hand == books[id].hand
    ensures SystemOf(jobs, books, agents).cells[id].row == jobs[id]
  {
  }

  lemma OnlyTheRowChanges(jobs: Table, books: map<JobId, Books>, agents: Agents, id: JobId, row: Job)
    requires books.Keys == jobs.Keys && id in jobs
    ensures
      var s := SystemOf(jobs, books, agents);
      SystemOf(jobs[id := row], books, agents) == s.(cells := s.cells[id := CellOf(row, books[id])])
  {
    OneRowChanges(jobs, books, agents, id, row, books[id]);
    assert books == books[id := books[id]];
  }

  /** What one drain does to one job's cell, given how GitHub answers it. */
  function Drained(c: Cell, reply: Reply): Cell {
    if c.row.pendingStatus.None? || reply == PostFailed(false) then c
    else
      var told := c.(wall := c.wall + [Posting(c.row.statusSeq, c.row.pendingStatus.value)]);
      if !reply.PostedCheckClosed? then told else told.(row := c.row.(pendingStatus := None))
  }

  /** The post a reply answers; a drain puts the verdict back on any failure, whatever its kind. */
  function PostOf(reply: Reply): Post {
    if reply.PostFailed? then Refused(reply.landed) else Told
  }

  function TakenBook(book: Books, owed: Owed): Books {
    book.(hand := book.hand + [Held(owed.verdict, owed.seqNo, false)])
  }

  // Rows and books once the owed verdicts of the jobs in `done` are in a drain's hand.
  function TakenRows(rows: Table, done: set<JobId>): Table {
    map id | id in rows :: if id in done then Discarded(rows[id]) else rows[id]
  }

  function TakenBooks(books: map<JobId, Books>, taken: map<JobId, Owed>, done: set<JobId>): map<JobId, Books>
    requires done <= taken.Keys
  {
    map id | id in books :: if id in done then TakenBook(books[id], taken[id]) else books[id]
  }

  lemma NoneTaken(rows: Table, books: map<JobId, Books>, taken: map<JobId, Owed>)
    ensures TakenRows(rows, taken.Keys - taken.Keys) == rows
    ensures TakenBooks(books, taken, taken.Keys - taken.Keys) == books
  {
  }

  lemma OneMoreTaken(rows: Table, books: map<JobId, Books>, taken: map<JobId, Owed>, done: set<JobId>, id: JobId)
    requires done <= taken.Keys && id in taken && id !in done && id in rows && id in books
    ensures TakenRows(rows, done).Keys == rows.Keys && TakenRows(rows, done)[id] == rows[id]
    ensures TakenBooks(books, taken, done).Keys == books.Keys && TakenBooks(books, taken, done)[id] == books[id]
    ensures TakenRows(rows, done + {id}) == TakenRows(rows, done)[id := Discarded(rows[id])]
    ensures TakenBooks(books, taken, done + {id})
         == TakenBooks(books, taken, done)[id := TakenBook(books[id], taken[id])]
  {
    hide Discarded, TakenBook;
  }

  /** The released runs whose device was still announcing itself. */
  function LiveHolders(rows: Table, released: set<JobId>, agents: Agents, now: real): set<JobId>
    requires released <= rows.Keys
  {
    set id | id in released && rows[id].device.Some? && Present(agents, rows[id].device.value, now)
  }

  lemma LiveHoldersAreWithinTheMinute(rows: Table, released: set<JobId>, agents: Agents, now: real)
    requires released <= rows.Keys
    ensures LiveHolders(rows, released, agents, now)
         == set id | id in released && rows[id].device.Some? && rows[id].device.value in agents
                     && now <= agents[rows[id].device.value] + 60.0
  {
  }

  /** An event other than an enqueue or a heartbeat is decided cell by cell. */
  lemma CellByCell(s: System, e: Event, t: System)
    requires !e.Enqueue? && !e.Heartbeat?
    requires t.agents == s.agents && t.cells.Keys == s.cells.Keys
    requires forall id | id in s.cells :: t.cells[id] == CellAfter(s.cells[id], id, e, s.agents, Picked(s, e))
    ensures t == Next(s, e)
  {
    assert t.cells == Next(s, e).cells;
  }

  /** An event that names one job changes that job's cell and no other. */
  lemma OneCellChanges(s: System, e: Event)
    requires e.DrainPost? || e.CheckDone? || e.Report?
    ensures Next(s, e) ==
      if e.id in s.cells then s.(cells := s.cells[e.id := CellAfter(s.cells[e.id], e.id, e, s.agents, None)]) else s
  {
    var t := if e.id !in s.cells then s
             else s.(cells := s.cells[e.id := CellAfter(s.cells[e.id], e.id, e, s.agents, None)]);
    CellByCell(s, e, t);
  }

  lemma OneJobIsClaimed(s: System, e: Event)
    requires e.Claim?
    ensures Picked(s, e).None? ==> Next(s, e) == s
    ensures Picked(s, e).Some? && Picked(s, e).value in s.cells ==>
              var id := Picked(s, e).value;
              Next(s, e) == s.(cells := s.cells[id := Claimed(s.cells[id], e.device, e.lease, e.now)])
  {
    hide Claimed, Picked;
    match Picked(s, e)
    case None => CellByCell(s, e, s);
    case Some(id) =>
      if id in s.cells {
        CellByCell(s, e, s.(cells := s.cells[id := Claimed(s.cells[id], e.device, e.lease, e.now)]));
      }
  }

  lemma QueuesInserts(jobs: Table, books: map<JobId, Books>, agents: Agents, e: Event)
    requires e.Enqueue? && books.Keys == jobs.Keys
    ensures Queues(jobs, e.id, e.delivery) <==> Inserts(SystemOf(jobs, books, agents), e)
  {
    var s := SystemOf(jobs, books, agents);
    if id :| id in jobs && jobs[id].delivery == e.delivery { assert s.cells[id].row.delivery == e.delivery; }
    if id :| id in s.cells && s.cells[id].row.delivery == e.delivery { assert jobs[id].delivery == e.delivery; }
  }

  lemma ClaimedCell(row: Job, book: Books, device: Device, lease: real, now: real)
    ensures CellOf(ClaimRow(row, device, lease, now), book) == Claimed(CellOf(row, book), device, lease, now)
  {
  }

  /** A report that settles its row leaves the verdict told or owed. */
  lemma ReportedTables(jobs: Table, books: map<JobId, Books>, agents: Agents, e: Event, settled: Job, verdict: Verdict)
    requires e.Report? && e.id in jobs && books.Keys == jobs.Keys
    requires e.error != "" || e.exitCode.Some?
    requires Settle(jobs[e.id], agents, e.device, e.exitCode, e.error, e.findings, e.now) == Ok(settled)
    requires verdict == ReportVerdict(jobs[e.id], e.exitCode, e.error, e.findings)
    ensures
      var row := if e.post.Refused? then OweStatus(settled, verdict) else settled;
      SystemOf(jobs[e.id := row], books[e.id := ToldBook(books[e.id], settled, verdict, e.post)], agents)
      == Next(SystemOf(jobs, books, agents), e)
  {
    OneCellChanges(SystemOf(jobs, books, agents), e);
    var row := if e.post.Refused? then OweStatus(settled, verdict) else settled;
    OneRowChanges(jobs, books, agents, e.id, row, ToldBook(books[e.id], settled, verdict, e.post));
    hide Next, Settle, ReportVerdict, SystemOf;
  }

  function ToldBook(book: Books, settled: Job, verdict: Verdict, post: Post): Books {
    book.(wall := if Landed(post) then book.wall + [Posting(settled.statusSeq, verdict)] else book.wall,
          latest := Some(verdict))
  }

  /** A report that settles nothing leaves the machine as it was. */
  lemma ARefusedReport(jobs: Table, books: map<JobId, Books>, agents: Agents, e: Event)
    requires e.Report? && books.Keys == jobs.Keys
    requires e.id in jobs ==> Settle(jobs[e.id], agents, e.device, e.exitCode, e.error, e.findings, e.now).Err?
    ensures Next(SystemOf(jobs, books, agents), e) == SystemOf(jobs, books, agents)
  {
    var s := SystemOf(jobs, books, agents);
    OneCellChanges(s, e);
    hide Next, Settle, SystemOf;
    if e.id in jobs { assert s.cells[e.id := s.cells[e.id]] == s.cells; }
  }

  lemma LastWriteCounts(jobs: Table, id: JobId, first: Job, last: Job)
    ensures jobs[id := first][id := last] == jobs[id := last]
  {
  }

  // A row whose verdict a drain took.
  function Discarded(row: Job): Job {
    row.(pendingStatus := None)
  }

  lemma RunThenStep(s: System, events: seq<Event>, e: Event)
    ensures Run(s, events + [e]) == Next(Run(s, events), e)
  {
    hide Next;
    RunConcat(s, events, [e]);
    assert Run(Run(s, events), [e]) == Run(Next(Run(s, events), e), []);
  }

  lemma OneStepRun(s: System, e: Event)
    ensures Run(s, [e]) == Next(s, e)
  {
    hide Next;
    assert Run(s, [e]) == Run(Next(s, e), []);
  }

  lemma AfterTake(s: System)
    ensures Next(s, DrainTake).cells.Keys == s.cells.Keys
    ensures forall id | id in s.cells :: Next(s, DrainTake).cells[id] == Taken(s.cells[id])
  {
  }

  lemma NothingRun(s: System)
    ensures Run(s, []) == s
  {
  }

  lemma AfterReclaim(s: System, now: real)
    ensures Next(s, Reclaim(now)).cells.Keys == s.cells.Keys
    ensures forall id | id in s.cells :: Next(s, Reclaim(now)).cells[id] == Reclaimed(s.cells[id], s.agents, now)
  {
  }

  // Rows and books once the runs in `done` are released on a lost lease.
  function ReleasedRows(rows: Table, done: set<JobId>, now: real): Table {
    map id | id in rows :: if id in done then LostRow(rows[id], now) else rows[id]
  }

  function LostRow(row: Job, now: real): Job {
    Release(row, now, LEASE_LOST, Some(LostDescription(row, LEASE_LOST)))
  }

  function ReleasedBooks(books: map<JobId, Books>, rows: Table, done: set<JobId>): map<JobId, Books>
    requires done <= rows.Keys
  {
    map id | id in books ::
      if id in done then books[id].(latest := Some(LostDescription(rows[id], LEASE_LOST))) else books[id]
  }

  lemma NoneReleased(rows: Table, books: map<JobId, Books>, released: set<JobId>, now: real)
    ensures ReleasedRows(rows, released - released, now) == rows
    ensures ReleasedBooks(books, rows, released - released) == books
  {
  }

  lemma OneMoreReleased(rows: Table, books: map<JobId, Books>, done: set<JobId>, id: JobId, now: real)
    requires done <= rows.Keys && id in rows && id !in done && id in books
    ensures ReleasedRows(rows, done, now).Keys == rows.Keys && ReleasedRows(rows, done, now)[id] == rows[id]
    ensures ReleasedBooks(books, rows, done).Keys == books.Keys && ReleasedBooks(books, rows, done)[id] == books[id]
    ensures ReleasedRows(rows, done + {id}, now) == ReleasedRows(rows, done, now)[id := LostRow(rows[id], now)]
    ensures ReleasedBooks(books, rows, done + {id})
         == ReleasedBooks(books, rows, done)[id := books[id].(latest := Some(LostDescription(rows[id], LEASE_LOST)))]
  {
    hide LostRow, LostDescription;
  }

  /** Tables in which every spent run, and nothing else, was released are what a reclaim leaves. */
  lemma ReclaimedTables(jobs: Table, books: map<JobId, Books>, agents: Agents, released: set<JobId>, now: real)
    requires books.Keys == jobs.Keys
    requires released == set id | id in jobs && Lapsed(jobs[id], agents, now)
    ensures SystemOf(ReleasedRows(jobs, released, now), ReleasedBooks(books, jobs, released), agents)
         == Next(SystemOf(jobs, books, agents), Reclaim(now))
  {
    hide Next, Lapsed, Release, LostDescription;
    CellByCell(SystemOf(jobs, books, agents), Reclaim(now),
               SystemOf(ReleasedRows(jobs, released, now), ReleasedBooks(books, jobs, released), agents));
  }

  /** Tables in which every owed verdict moved into a drain's hand are what a take leaves. */
  lemma TakenTables(jobs: Table, books: map<JobId, Books>, agents: Agents, after: Table, held: map<JobId, Books>)
    requires books.Keys == jobs.Keys == after.Keys == held.Keys
    requires forall id | id in jobs && jobs[id].pendingStatus.None? :: after[id] == jobs[id] && held[id] == books[id]
    requires forall id | id in jobs && jobs[id].pendingStatus.Some? ::
               && after[id] == Discarded(jobs[id])
               && held[id] == TakenBook(books[id], Owed(id, jobs[id].pendingStatus.value, jobs[id].statusSeq))
    ensures SystemOf(after, held, agents) == Next(SystemOf(jobs, books, agents), DrainTake)
  {
    hide Next;
    CellByCell(SystemOf(jobs, books, agents), DrainTake, SystemOf(after, held, agents));
  }

  lemma NothingOwedNothingDrained(s: System, github: JobId -> Reply)
    ensures forall id | id in s.cells && s.cells[id].row.pendingStatus.None? ::
              Taken(s.cells[id]) == s.cells[id] == Drained(s.cells[id], github(id))
  {
  }

  /** Taking, posting and checking one owed verdict is what a drain does to its job. */
  lemma OneDrainedJob(c: Cell, reply: Reply)
    requires c.row.pendingStatus.Some?
    ensures
      var k := |c.hand|;
      var posted := Posted(Taken(c), k, PostOf(reply));
      && |Taken(c).hand| == k + 1 && Taken(c).row.statusSeq == c.row.statusSeq
      && Taken(c).hand[k] == Held(c.row.pendingStatus.value, c.row.statusSeq, false)
      && (reply.PostFailed? ==> posted == Drained(c, reply))
      && (!reply.PostFailed? ==>
            && |posted.hand| == k + 1
            && posted.hand[k] == Held(c.row.pendingStatus.value, c.row.statusSeq, true)
            && Checked(posted, k, reply.PostedCheckClosed?) == Drained(c, reply))
  {
    var k := |c.hand|;
    var taken := Taken(c);
    assert Without(taken.hand, k) == c.hand;
    assert Without(taken.hand[k := taken.hand[k].(posted := true)], k) == c.hand;
  }

  /** A drain part way: the jobs still to do are as taken, the rest as their reply left them. */
  ghost predicate PartlyDrained(now: map<JobId, Cell>, start: map<JobId, Cell>, cells: map<JobId, Cell>,
                                taken: set<JobId>, todo: set<JobId>, github: JobId -> Reply)
  {
    && now.Keys == start.Keys == cells.Keys && todo <= taken <= cells.Keys
    && (forall id | id in todo :: now[id] == Taken(cells[id]))
    && (forall id | id in cells && id !in todo ::
          now[id] == if id in taken then Drained(cells[id], github(id)) else start[id])
  }

  lemma NothingDrainedYet(start: map<JobId, Cell>, cells: map<JobId, Cell>, taken: set<JobId>, github: JobId -> Reply)
    requires taken <= start.Keys == cells.Keys
    requires forall id | id in taken :: start[id] == Taken(cells[id])
    ensures PartlyDrained(start, start, cells, taken, taken, github)
  {
  }

  lemma OneMoreDrained(now: map<JobId, Cell>, start: map<JobId, Cell>, cells: map<JobId, Cell>,
                       taken: set<JobId>, todo: set<JobId>, github: JobId -> Reply, id: JobId)
    requires PartlyDrained(now, start, cells, taken, todo, github) && id in todo
    ensures id in now && id in cells && now[id] == Taken(cells[id])
    ensures PartlyDrained(now[id := Drained(cells[id], github(id))], start, cells, taken, todo - {id}, github)
  {
  }

  lemma AllDrained(now: map<JobId, Cell>, start: map<JobId, Cell>, cells: map<JobId, Cell>,
                   taken: set<JobId>, github: JobId -> Reply)
    requires PartlyDrained(now, start, cells, taken, {}, github)
    ensures now.Keys == start.Keys == cells.Keys
    ensures forall id | id in cells ::
              now[id] == if id in taken then Drained(cells[id], github(id)) else start[id]
  {
  }

  class Store {
    var jobs: Table
    var agents: Agents
    var reclaims: nat
    var reclaimsLive: nat
    ghost var books: map<JobId, Books>

    /** The rows and the books cover the same jobs. */
    ghost predicate Valid()
      reads this
    {
      books.Keys == jobs.Keys
    }

    /** The machine state this store stands for. */
    ghost function View(): System
      reads this
      requires Valid()
      ensures View().cells.Keys == jobs.Keys
    {
      SystemOf(jobs, books, agents)
    }

    constructor ()
      ensures Valid() && View() == EMPTY
      ensures reclaims == 0 && reclaimsLive == 0
    {
      jobs, agents, reclaims, reclaimsLive := map[], map[], 0, 0;
      books := map[];
    }

    method RecordHeartbeat(device: Device, now: real)
      requires Valid()
      modifies this`agents
      ensures Valid() && View() == Next(old(View()), Heartbeat(device, now))
    {
      agents := map d | d in agents && agents[d] >= now - AGENT_RETENTION_SECONDS :: agents[d];
      agents := agents[device := now];
    }

    /**
     * A named delivery already queued is answered with the run it was queued as. Any other clash,
     * of an id or of the empty delivery, raises.
     */
    method Enqueue(id: JobId, repository: string, labels: set<string>, delivery: Option<string>, now: real)
      returns (queued: Result<JobId, BadEnqueue>)
      requires Valid()
      modifies this`jobs, this`books
      ensures Valid()
      ensures View() == Next(old(View()), VerdictLedger.Enqueue(id, repository, labels, delivery, now))
      ensures queued.Ok? <==>
                || Queues(old(jobs), id, delivery)
                || (delivery.Some? && delivery.value != "" && Delivered(old(jobs), delivery))
      ensures queued.Ok? ==>
                if Queues(old(jobs), id, delivery) then queued.value == id
                else queued.value in jobs && jobs[queued.value].delivery == delivery
    {
      ghost var before := View();
      ghost var event := VerdictLedger.Enqueue(id, repository, labels, delivery, now);
      QueuesInserts(jobs, books, agents, event);
      if Queues(jobs, id, delivery) {
        jobs := jobs[id := NewJob(repository, labels, now, delivery)];
        books := books[id := Books([], [], None)];
        hide Queues;
        assert View().cells == before.cells[id := Cell(jobs[id], [], [], None)];
        return Ok(id);
      }
      if delivery.None? || delivery.value == "" || !Delivered(jobs, delivery) {
        return Err(Clashes);
      }
      var existing :| existing in jobs && jobs[existing].delivery == delivery;
      return Ok(existing);
    }

    /** Either refuses the request as malformed, or gives `Pick`'s run to the device. */
    method Claim(device: Device, offered: set<string>, lease: real, now: real, cap: Option<nat>)
      returns (answer: Result<Option<JobId>, BadClaim>)
      requires Valid()
      modifies this`jobs
      ensures Valid() && View() == Next(old(View()), VerdictLedger.Claim(device, offered, lease, now, cap))
      ensures answer.Err? <==> lease <= 0.0 || cap == Some(0)
      ensures answer.Ok? ==> answer.value == Pick(old(jobs), offered, now, cap)
    {
      hide Next;
      ghost var before := View();
      ghost var event := VerdictLedger.Claim(device, offered, lease, now, cap);
      assert Rows(before) == jobs;
      OneJobIsClaimed(before, event);
      if lease <= 0.0 {
        return Err(LeaseNotPositive);
      }
      if cap == Some(0) {
        return Err(CapNotPositive);
      }
      var picked := PickJob(offered, now, cap);
      hide Pick, SystemOf, Claimed;
      if picked.Some? {
        var id := picked.value;
        var row := jobs[id];
        jobs := jobs[id := row.(status := Running, device := Some(device), leaseExpires := Some(now + lease),
                                attempts := row.attempts + 1)];
        OnlyTheRowChanges(old(jobs), books, agents, id, jobs[id]);
        ClaimedCell(row, books[id], device, lease, now);
        assert CellOf(jobs[id], books[id]) == Claimed(before.cells[id], device, lease, now);
      }
      return Ok(picked);
    }

    /** The job a claim may have, least loaded repository first, or none. */
    method PickJob(offered: set<string>, now: real, cap: Option<nat>) returns (picked: Option<JobId>)
      requires cap != Some(0)
      ensures picked == Pick(jobs, offered, now, cap)
      ensures picked.Some? ==> picked.value in jobs
    {
      var eligible := EligibleJobs(jobs, offered, now, cap);
      if eligible == {} {
        assert forall id :: id in eligible <==> Eligible(jobs, id, offered, now, cap);
        return None;
      }
      FirstExists(jobs, eligible);
      var first :| first in eligible && forall other | other in eligible :: NoLaterThan(jobs, first, other);
      assert IsFirst(jobs, eligible, first);
      return Some(first);
    }

    method RenewLease(id: JobId, device: Device, lease: real, now: real) returns (renewed: Result<bool, BadClaim>)
      requires Valid()
      modifies this`jobs
      ensures Valid() && View() == Next(old(View()), VerdictLedger.RenewLease(id, device, lease, now))
      ensures renewed.Err? <==> lease <= 0.0
      ensures renewed.Ok? ==> (renewed.value <==> id in old(jobs) && HoldsLease(old(jobs)[id], agents, device, now))
    {
      ghost var before := View();
      ghost var event := VerdictLedger.RenewLease(id, device, lease, now);
      if lease <= 0.0 {
        assert View().cells == Next(before, event).cells;
        return Err(LeaseNotPositive);
      }
      var holds := id in jobs && jobs[id].status == Running && jobs[id].device == Some(device)
                   && !Spent(jobs[id], agents, now);
      if holds {
        jobs := jobs[id := jobs[id].(leaseExpires := Some(now + lease))];
      }
      assert View().cells == Next(before, event).cells;
      return Ok(holds);
    }

    /** The one update that sends a run back or parks it. */
    method ReleaseRow(id: JobId, attempts: nat, now: real, error: string, owed: Option<Verdict>)
      requires id in jobs && attempts == jobs[id].attempts
      modifies this`jobs
      ensures jobs == old(jobs)[id := Release(old(jobs)[id], now, error, owed)]
    {
      var row := jobs[id];
      jobs := jobs[id := row.(
        status := if Parked(attempts) then Dead else Pending,
        device := None,
        leaseExpires := None,
        lastError := Some(Take(error, MAX_ERROR_CHARS)),
        availableAt := Some(now + BackoffSeconds(attempts)),
        pendingStatus := if owed.Some? then owed else row.pendingStatus,
        statusSeq := row.statusSeq + if owed.Some? then 1 else 0)];
    }

    /** The transaction that ends or releases a run. A refusal leaves the table as it was. */
    method SettleRun(id: JobId, device: Device, exitCode: Option<int>, error: string, findings: Findings, now: real)
      returns (refusal: Option<Refusal>)
      modifies this`jobs
      ensures id !in old(jobs) ==> refusal == Some(UnknownJob) && jobs == old(jobs)
      ensures id in old(jobs) ==>
        match Settle(old(jobs)[id], agents, device, exitCode, error, findings, now)
        case Err(why) => refusal == Some(why) && jobs == old(jobs)
        case Ok(row) => refusal == None && jobs == old(jobs)[id := row]
    {
      if id !in jobs {
        return Some(UnknownJob);
      }
      var row := jobs[id];
      if row.status != Running || row.device != Some(device) {
        return Some(NotLeased);
      }
      if Spent(row, agents, now) {
        return Some(LeaseExpired);
      }
      if error != "" {
        jobs := jobs[id := row.(pendingStatus := None, statusSeq := row.statusSeq + 1)];
        ReleaseRow(id, row.attempts, now, error, None);
      } else if exitCode.None? {
        return Some(NoVerdict);
      } else {
        jobs := jobs[id := row.(
          status := if exitCode.value == 0 then Success else Failure,
          exitCode := exitCode,
          leaseExpires := None,
          lastError := None,
          findings := Some(Stored(findings)),
          statusSeq := row.statusSeq + 1,
          pendingStatus := None)];
      }
      return None;
    }

    /**
     * A report under the status lock: the row settles, the status goes out, a refused one is owed.
     * A post that breaks off ends the report there.
     */
    method ReportRun(id: JobId, device: Device, exitCode: Option<int>, error: string, findings: Findings,
                     post: Post, now: real)
      returns (answer: ReportAnswer)
      requires Valid()
      modifies this`jobs, this`books
      ensures Valid()
      ensures View() == Next(old(View()), Report(id, device, exitCode, error, findings, post, now))
      ensures !answer.Denied? <==>
                id in old(jobs) && Settle(old(jobs)[id], agents, device, exitCode, error, findings, now).Ok?
      ensures !answer.Denied? ==> (answer.Raised? <==> post.BrokeOff?)
    {
      ghost var before := View();
      ghost var event := Report(id, device, exitCode, error, findings, post, now);
      hide Next, SystemOf;
      if id !in jobs {
        ARefusedReport(jobs, books, agents, event);
        return Denied(UnknownJob);
      }
      if error == "" && exitCode.None? {
        ARefusedReport(jobs, books, agents, event);
        return Denied(NoVerdict);
      }
      var verdict := ReportVerdict(jobs[id], exitCode, error, findings);
      var refusal := SettleRun(id, device, exitCode, error, findings, now);
      if refusal.Some? {
        ARefusedReport(old(jobs), books, agents, event);
        return Denied(refusal.value);
      }
      ghost var settled := jobs[id];
      ReportedTables(old(jobs), books, agents, event, settled, verdict);
      hide Settle, ReportVerdict, ToldBook, OweStatus;
      Tell(id, verdict, post);
      LastWriteCounts(old(jobs), id, settled, jobs[id]);
      return if post.BrokeOff? then Raised else Recorded;
    }

    /** Post a settled run's status, and owe it when the post is refused. */
    method Tell(id: JobId, verdict: Verdict, post: Post)
      requires Valid() && id in jobs
      modifies this`jobs, this`books
      ensures Valid()
      ensures jobs == old(jobs)[id := if post.Refused? then OweStatus(old(jobs)[id], verdict) else old(jobs)[id]]
      ensures books == old(books)[id := ToldBook(old(books)[id], old(jobs)[id], verdict, post)]
    {
      books := books[id := ToldBook(books[id], jobs[id], verdict, post)];
      if post.Refused? {
        jobs := jobs[id := jobs[id].(pendingStatus := Some(verdict), statusSeq := jobs[id].statusSeq + 1)];
      }
    }

    /** Release every run on a spent lease, with the verdict the release owes. */
    method ReclaimExpired(now: real) returns (released: set<JobId>)
      requires Valid()
      modifies this`jobs, this`books, this`reclaims, this`reclaimsLive
      ensures Valid() && View() == Next(old(View()), Reclaim(now))
      ensures released == set id | id in old(jobs) && Lapsed(old(jobs)[id], agents, now)
      ensures reclaims == old(reclaims) + |released|
      ensures reclaimsLive == old(reclaimsLive)
              + |set id | id in released && old(jobs)[id].device.Some? && old(jobs)[id].device.value in agents
                          && now <= agents[old(jobs)[id].device.value] + 60.0|
    {
      hide Next, Lapsed, SystemOf, ReleasedRows, ReleasedBooks, LiveHolders;
      var rows := jobs;
      released := set id | id in rows && Lapsed(rows[id], agents, now);
      ReleaseAll(released, now);
      reclaims := reclaims + |released|;
      reclaimsLive := reclaimsLive + |LiveHolders(rows, released, agents, now)|;
      LiveHoldersAreWithinTheMinute(rows, released, agents, now);
      ReclaimedTables(rows, old(books), agents, released, now);
    }

    method ReleaseAll(released: set<JobId>, now: real)
      requires Valid() && released <= jobs.Keys
      modifies this`jobs, this`books
      ensures Valid()
      ensures jobs == ReleasedRows(old(jobs), released, now) && books == ReleasedBooks(old(books), old(jobs), released)
    {
      hide Release, LostDescription, ReleasedRows, ReleasedBooks;
      ghost var was := books;
      var rows := jobs;
      var todo := released;
      NoneReleased(rows, was, released, now);
      while todo != {}
        invariant todo <= released && Valid()
        invariant jobs == ReleasedRows(rows, released - todo, now) && books == ReleasedBooks(was, rows, released - todo)
        decreases todo
      {
        var id :| id in todo;
        OneMoreReleased(rows, was, released - todo, id, now);
        var owed := LostDescription(rows[id], LEASE_LOST);
        ReleaseRow(id, rows[id].attempts, now, LEASE_LOST, Some(owed));
        books := books[id := books[id].(latest := Some(owed))];
        assert released - (todo - {id}) == (released - todo) + {id};
        todo := todo - {id};
      }
      assert released - {} == released;
    }

    /** Move every owed verdict from its row into `taken`: the machine's DrainTake. */
    method ClaimOwedStatuses() returns (taken: map<JobId, Owed>)
      requires Valid()
      modifies this`jobs, this`books
      ensures Valid() && View() == Next(old(View()), DrainTake)
      ensures taken.Keys == set id | id in old(jobs) && old(jobs)[id].pendingStatus.Some?
      ensures forall id | id in taken ::
                taken[id] == Owed(id, old(jobs)[id].pendingStatus.value, old(jobs)[id].statusSeq)
    {
      ghost var before := View();
      var rows := jobs;
      taken := map id | id in rows && rows[id].pendingStatus.Some?
                 :: Owed(id, rows[id].pendingStatus.value, rows[id].statusSeq);
      DiscardAll(taken);
      hide Next, SystemOf, TakenBook, Discarded;
      TakenTables(rows, old(books), agents, jobs, books);
    }

    method DiscardAll(taken: map<JobId, Owed>)
      requires Valid() && taken.Keys <= jobs.Keys
      requires forall id | id in taken :: jobs[id].pendingStatus == Some(taken[id].verdict)
      modifies this`jobs, this`books
      ensures Valid()
      ensures jobs == TakenRows(old(jobs), taken.Keys) && books == TakenBooks(old(books), taken, taken.Keys)
    {
      hide TakenBook, Discarded, TakenRows, TakenBooks;
      ghost var rows, was := jobs, books;
      var todo := taken.Keys;
      NoneTaken(rows, was, taken);
      while todo != {}
        invariant todo <= taken.Keys && Valid()
        invariant jobs == TakenRows(rows, taken.Keys - todo) && books == TakenBooks(was, taken, taken.Keys - todo)
        decreases todo
      {
        var id :| id in todo;
        OneMoreTaken(rows, was, taken, taken.Keys - todo, id);
        DiscardStatus(id, taken[id].verdict);
        books := books[id := TakenBook(books[id], taken[id])];
        assert taken.Keys - (todo - {id}) == (taken.Keys - todo) + {id};
        todo := todo - {id};
      }
      assert taken.Keys - {} == taken.Keys;
    }

    /** Clear what one row owes if that is `verdict`. */
    method DiscardStatus(id: JobId, verdict: Verdict)
      requires id in jobs
      modifies this`jobs
      ensures jobs == old(jobs)[id := if old(jobs)[id].pendingStatus == Some(verdict)
                                      then Discarded(old(jobs)[id]) else old(jobs)[id]]
    {
      if jobs[id].pendingStatus == Some(verdict) {
        jobs := jobs[id := jobs[id].(pendingStatus := None)];
      }
    }

    /** `RestoreStatus` on one row. */
    method Restore(id: JobId, verdict: Verdict, seqNo: nat)
      requires id in jobs
      modifies this`jobs
      ensures jobs == old(jobs)[id := RestoreStatus(old(jobs)[id], verdict, seqNo)]
    {
      if jobs[id].pendingStatus.None? && jobs[id].statusSeq == seqNo {
        jobs := jobs[id := jobs[id].(pendingStatus := Some(verdict))];
      }
    }

    /** The machine's DrainPost for the verdict at place `k` of its job's hand. */
    method PostIfCurrent(owed: Owed, ghost k: nat, post: Post) returns (posted: bool)
      requires Valid() && owed.id in jobs
      requires k < |books[owed.id].hand| && books[owed.id].hand[k] == Held(owed.verdict, owed.seqNo, false)
      modifies this`jobs, this`books
      ensures Valid() && View() == Next(old(View()), DrainPost(owed.id, k, post))
      ensures View().cells == old(View()).cells[owed.id := Posted(old(View()).cells[owed.id], k, post)]
      ensures posted <==> post.Told? && old(jobs)[owed.id].statusSeq == owed.seqNo
    {
      hide Next;
      ghost var before := View();
      ghost var book := books[owed.id];
      OneCellChanges(before, DrainPost(owed.id, k, post));
      posted := false;
      if jobs[owed.id].statusSeq != owed.seqNo {
        books := books[owed.id := book.(hand := Without(book.hand, k))];
      } else if post.Told? {
        books := books[owed.id := book.(hand := book.hand[k := book.hand[k].(posted := true)],
                                        wall := book.wall + [Posting(owed.seqNo, owed.verdict)])];
        posted := true;
      } else {
        Restore(owed.id, owed.verdict, owed.seqNo);
        books := books[owed.id := book.(
          hand := Without(book.hand, k),
          wall := if post.landed then book.wall + [Posting(owed.seqNo, owed.verdict)] else book.wall)];
      }
      hide SystemOf;
      OneRowChanges(old(jobs), old(books), agents, owed.id, jobs[owed.id], books[owed.id]);
      assert jobs == old(jobs)[owed.id := jobs[owed.id]];
    }

    /** The check run behind an accepted post; a refused one puts the verdict back. */
    method FinishCheck(owed: Owed, ghost k: nat, closed: bool)
      requires Valid() && owed.id in jobs
      requires k < |books[owed.id].hand| && books[owed.id].hand[k] == Held(owed.verdict, owed.seqNo, true)
      modifies this`jobs, this`books
      ensures Valid() && View() == Next(old(View()), CheckDone(owed.id, k, closed))
      ensures View().cells == old(View()).cells[owed.id := Checked(old(View()).cells[owed.id], k, closed)]
    {
      hide Next;
      ghost var before := View();
      ghost var book := books[owed.id];
      OneCellChanges(before, CheckDone(owed.id, k, closed));
      if !closed {
        Restore(owed.id, owed.verdict, owed.seqNo);
      }
      books := books[owed.id := book.(hand := Without(book.hand, k))];
      hide SystemOf;
      OneRowChanges(old(jobs), old(books), agents, owed.id, jobs[owed.id], books[owed.id]);
      assert jobs == old(jobs)[owed.id := jobs[owed.id]];
    }

    /** DrainPost and CheckDone for one job: starting from `Taken(c)` its cell ends as `Drained(c, reply)`. */
    method DrainOne(owed: Owed, reply: Reply, ghost c: Cell) returns (ghost events: seq<Event>)
      requires Valid() && owed.id in jobs && c.row.pendingStatus == Some(owed.verdict) && c.row.statusSeq == owed.seqNo
      requires View().cells[owed.id] == Taken(c)
      modifies this`jobs, this`books
      ensures Valid() && View() == Run(old(View()), events)
      ensures View().cells == old(View()).cells[owed.id := Drained(c, reply)]
    {
      hide Run, Posted, Checked, Drained, Next, SystemOf, CellOf, Taken;
      ghost var before, k := View(), |c.hand|;
      OneDrainedJob(c, reply);
      TheBookIsTheHand(jobs, books, agents, owed.id);
      var posted := PostIfCurrent(owed, k, PostOf(reply));
      ghost var mid := View();
      events := [DrainPost(owed.id, k, PostOf(reply))];
      OneStepRun(before, events[0]);
      assert posted <==> !reply.PostFailed?;
      if posted {
        TheBookIsTheHand(jobs, books, agents, owed.id);
        FinishCheck(owed, k, reply.PostedCheckClosed?);
        ghost var check := CheckDone(owed.id, k, reply.PostedCheckClosed?);
        RunThenStep(before, events, check);
        events := events + [check];
      }
    }

    /** A whole drain: a take, then each job's own posts and checks, as one run of the machine. */
    method DrainOwed(github: JobId -> Reply) returns (ghost events: seq<Event>)
      requires Valid()
      modifies this`jobs, this`books
      ensures Valid() && View() == Run(old(View()), events)
      ensures View().cells.Keys == old(View()).cells.Keys
      ensures forall id | id in View().cells :: View().cells[id] == Drained(old(View()).cells[id], github(id))
    {
      hide Run, Next, Drained, SystemOf, Taken;
      ghost var before := View();
      assert forall id | id in before.cells :: before.cells[id].row == jobs[id];
      hide CellOf;
      var taken := ClaimOwedStatuses();
      AfterTake(before);
      NothingOwedNothingDrained(before, github);
      OneStepRun(before, DrainTake);
      ghost var more := DrainTaken(taken, github, before.cells);
      RunConcat(before, [DrainTake], more);
      events := [DrainTake] + more;
    }

    method DrainTaken(taken: map<JobId, Owed>, github: JobId -> Reply, ghost cells: map<JobId, Cell>)
      returns (ghost events: seq<Event>)
      requires Valid() && taken.Keys <= View().cells.Keys == cells.Keys
      requires forall id | id in taken ::
                 && taken[id] == Owed(id, taken[id].verdict, cells[id].row.statusSeq)
                 && cells[id].row.pendingStatus == Some(taken[id].verdict)
                 && View().cells[id] == Taken(cells[id])
      modifies this`jobs, this`books
      ensures Valid() && View() == Run(old(View()), events)
      ensures View().cells.Keys == cells.Keys
      ensures forall id | id in cells ::
                View().cells[id] == if id in taken then Drained(cells[id], github(id)) else old(View()).cells[id]
    {
      hide Run, Drained, Taken, View, Next, PartlyDrained;
      ghost var before := View();
      NothingRun(before);
      events := [];
      var todo := taken.Keys;
      NothingDrainedYet(before.cells, cells, taken.Keys, github);
      while todo != {}
        invariant todo <= taken.Keys && Valid() && View() == Run(before, events)
        invariant PartlyDrained(View().cells, before.cells, cells, taken.Keys, todo, github)
        decreases todo
      {
        var id :| id in todo;
        OneMoreDrained(View().cells, before.cells, cells, taken.Keys, todo, github, id);
        ghost var more := DrainOne(taken[id], github(id), cells[id]);
        RunConcat(before, events, more);
        events := events + more;
        todo := todo - {id};
      }
      AllDrained(View().cells, before.cells, cells, taken.Keys, github);
    }

    /** A reclaim and the drain behind it, as one run of the machine. */
    method ReclaimTick(github: JobId -> Reply, now: real) returns (released: nat, ghost events: seq<Event>)
      requires Valid()
      modifies this
      ensures Valid() && View() == Run(old(View()), events)
      ensures released == |set id | id in old(jobs) && Lapsed(old(jobs)[id], old(agents), now)|
      ensures View().cells.Keys == old(View()).cells.Keys
      ensures forall id | id in View().cells ::
                View().cells[id] == Drained(Reclaimed(old(View()).cells[id], old(agents), now), github(id))
    {
      hide Run, Drained, Next, Reclaimed;
      ghost var before := View();
      var taken := ReclaimExpired(now);
      released := |taken|;
      AfterReclaim(before, now);
      OneStepRun(before, Reclaim(now));
      ghost var more := DrainOwed(github);
      RunConcat(before, [Reclaim(now)], more);
      events := [Reclaim(now)] + more;
    }
  }
}
