/**
 * The check run a record produces, beside the commit status it produced: the conclusion read off
 * the loss, and the title that should be the sentence the status carries.
 */
module CheckRuns {
  import opened Prelude
  import opened JobRecord
  import opened Leases
  import opened Scheduling
  import opened VerdictLedger
  import opened QueueGuarantees

  const TIMED_OUT_EXIT: int := 130
  const MAX_STATUS_DESCRIPTION: nat := 140
  const QUEUED_TITLE: string := "queued on the device pool"
  const RUNNING_TITLE: string := "device pool run in progress"

  datatype Conclusion = Succeeded | Failed | TimedOut | Cancelled

  // How text is read: what is scrubbed from it, and what a log says of where its run stopped.
  datatype Reading = Reading(redact: string -> string, describe: string -> string)

  /** The conclusion of a record, or none while another attempt may follow. */
  function ConclusionFor(row: Job): Option<Conclusion> {
    if StateFor(row).PendingState? then None
    else if row.status.Success? then Some(Succeeded)
    else if row.status.Failure? then Some(if row.exitCode == Some(TIMED_OUT_EXIT) then TimedOut else Failed)
    else Some(if row.lastError == Some(LEASE_LOST) then Cancelled else Failed)
  }

  // ---- sentences ----

  function Digits(n: nat): string {
    if n < 10 then [('0' as int + n) as char] else Digits(n / 10) + Digits(n % 10)
  }

  function Decimal(n: int): string {
    if n < 0 then "-" + Digits(-n) else Digits(n)
  }

  /** What a failed run's sentence says after its exit code: the step it stopped in, or what its log says. */
  function Detail(findings: Findings, describe: string -> string): string {
    if findings.unfinished.Some? then findings.unfinished.value else describe(findings.log)
  }

  function Behind(detail: string): string {
    if detail == "" then "" else ": " + detail
  }

  function Head(text: Text): string {
    match text
    case Passed => "device pool run passed"
    case FailedRun(exitCode, _) => "device pool run failed (exit " + Decimal(exitCode) + ")"
    case LostRetrying(next, _) => "device pool run lost, retry " + Digits(next) + " of 3: "
    case LostForGood(attempts, _) => "device pool run lost after " + Digits(attempts) + " attempts: "
  }

  function Tail(text: Text, describe: string -> string): string {
    match text
    case Passed => ""
    case FailedRun(_, findings) => Behind(Detail(findings, describe))
    case LostRetrying(_, error) => error
    case LostForGood(_, error) => error
  }

  /** The sentence a commit status shows. */
  function Rendered(text: Text, describe: string -> string): string {
    Take(Head(text) + Tail(text, describe), MAX_STATUS_DESCRIPTION)
  }

  ghost predicate IsDigit(c: char) {
    '0' <= c <= '9'
  }

  /** The number some digits write, the first the largest. */
  ghost function Written(digits: string): int {
    if digits == "" then 0
    else 10 * Written(digits[..|digits| - 1]) + (digits[|digits| - 1] as int - '0' as int)
  }

  lemma {:induction false} DigitsWriteTheNumber(n: nat)
    ensures Written(Digits(n)) == n && |Digits(n)| > 0 && forall i | 0 <= i < |Digits(n)| :: IsDigit(Digits(n)[i])
    ensures Digits(n)[0] == '0' ==> n == 0
    decreases n
  {
    var last := [('0' as int + n % 10) as char];
    if n < 10 {
      assert Digits(n)[..0] == "";
    } else {
      DigitsWriteTheNumber(n / 10);
      assert Digits(n % 10) == last;
      assert Digits(n) == Digits(n / 10) + last;
      assert Digits(n)[..|Digits(n)| - 1] == Digits(n / 10);
    }
  }

  /**
   * The sentences a commit may be told: that a run passed, failed with its exit code and where it
   * stopped when that is known, or was lost with the error and the attempts made or to come, each cut to
   * 140 characters. The numbers are written in decimal.
   */
  lemma TheSentencesSay(exitCode: nat, findings: Findings, attempt: nat, error: string, describe: string -> string)
    ensures Written(Digits(exitCode)) == exitCode && Written(Digits(attempt)) == attempt
    ensures Rendered(Passed, describe) == "device pool run passed"
    ensures
      var stopped := if findings.unfinished.Some? then findings.unfinished.value else describe(findings.log);
      Rendered(FailedRun(exitCode, findings), describe)
      == Take("device pool run failed (exit " + Digits(exitCode) + ")"
              + if stopped == "" then "" else ": " + stopped, 140)
    ensures
      exitCode > 0 ==>
        Head(FailedRun(0 - exitCode as int, findings)) == "device pool run failed (exit -" + Digits(exitCode) + ")"
    ensures Rendered(LostRetrying(attempt, error), describe)
         == Take("device pool run lost, retry " + Digits(attempt) + " of 3: " + error, 140)
    ensures Rendered(LostForGood(attempt, error), describe)
         == Take("device pool run lost after " + Digits(attempt) + " attempts: " + error, 140)
  {
    DigitsWriteTheNumber(exitCode);
    DigitsWriteTheNumber(attempt);
    hide Written, Digits;
    assert "device pool run passed" + "" == "device pool run passed";
    assert "device pool run failed (exit " + ("-" + Digits(exitCode)) + ")"
        == "device pool run failed (exit -" + Digits(exitCode) + ")";
  }

  /** How much of a sentence's tail fits behind its head. */
  function Room(text: Text): nat {
    var head := |Head(text)|;
    if head > MAX_STATUS_DESCRIPTION then 0 else MAX_STATUS_DESCRIPTION - head
  }

  /** The record a check run is made from, with what a device wrote scrubbed. */
  function Redacted(row: Job, redact: string -> string): Job {
    row.(lastError := if row.lastError.Some? && row.lastError.value != "" then Some(redact(row.lastError.value))
                      else row.lastError,
         findings := if row.findings.None? then None
                     else Some(row.findings.value.(log := redact(row.findings.value.log))))
  }

  /** The title made from a record. */
  function TitleOf(row: Job, describe: string -> string): string {
    match row.status
    case Success => Rendered(Passed, describe)
    case Failure =>
      Rendered(FailedRun(if row.exitCode.Some? then row.exitCode.value else 1,
                         if row.findings.Some? then row.findings.value else Findings(None, "")), describe)
    case Dead => Rendered(LostDescription(row, if row.lastError.Some? then row.lastError.value else "").text, describe)
    case _ =>
      if row.lastError.Some? && row.lastError.value != "" then
        Rendered(LostDescription(row, row.lastError.value).text, describe)
      else if row.status.Running? then RUNNING_TITLE
      else QUEUED_TITLE
  }

  function TitleFor(row: Job, reading: Reading): string {
    TitleOf(Redacted(row, reading.redact), reading.describe)
  }

  // ---- what the record keeps of its newest verdict ----

  // The error a loss was told with, as the record keeps it.
  ghost predicate Kept(error: string, row: Job) {
    error != "" && row.lastError == Some(Take(error, MAX_ERROR_CHARS))
  }

  /** How a record and the verdict told of it last hang together, at every stage of a run's life. */
  ghost predicate Remembers(row: Job, latest: Option<Verdict>) {
    match row.status
    case Pending =>
      if latest.None? then row.lastError.None? && row.attempts == 0
      else
        latest.value.text.LostRetrying? && latest.value.text.next == row.attempts + 1
        && Kept(latest.value.text.error, row)
    case Running =>
      if latest.None? then row.lastError.None?
      else
        latest.value.text.LostRetrying? && latest.value.text.next == row.attempts
        && Kept(latest.value.text.error, row)
    case Success => latest.Some? && latest.value.text == Passed
    case Failure =>
      latest.Some? && latest.value.text.FailedRun? && row.exitCode == Some(latest.value.text.exitCode)
      && row.findings == Some(Stored(latest.value.text.findings))
    case Dead =>
      latest.Some? && latest.value.text.LostForGood? && latest.value.text.attempts == row.attempts
      && Kept(latest.value.text.error, row)
  }

  ghost predicate AllRemember(s: System) {
    forall id | id in s.cells :: Remembers(s.cells[id].row, s.cells[id].latest)
  }

  lemma AReportIsRemembered(c: Cell, agents: Agents, device: Device, exitCode: Option<int>, error: string,
                            findings: Findings, post: Post, now: real)
    requires CellInv(c) && Remembers(c.row, c.latest)
    ensures
      var after := Reported(c, agents, device, exitCode, error, findings, post, now);
      Remembers(after.row, after.latest)
  {
    hide Accounted, OneCustodian, CopiesAreLatest, InOrder, BackoffSeconds, Spent;
  }

  lemma AReclaimIsRemembered(c: Cell, agents: Agents, now: real)
    requires CellInv(c) && Remembers(c.row, c.latest)
    ensures Remembers(Reclaimed(c, agents, now).row, Reclaimed(c, agents, now).latest)
  {
    hide Accounted, OneCustodian, CopiesAreLatest, InOrder, BackoffSeconds, Spent;
  }

  lemma DrainsAreNotSeen(c: Cell, k: nat, post: Post, closed: bool)
    ensures Posted(c, k, post).latest == c.latest && SameStage(c.row, Posted(c, k, post).row)
    ensures Checked(c, k, closed).latest == c.latest && SameStage(c.row, Checked(c, k, closed).row)
    ensures Taken(c).latest == c.latest && SameStage(c.row, Taken(c).row)
  {
  }

  ghost predicate SameStage(before: Job, after: Job) {
    && before.status == after.status && before.attempts == after.attempts
    && before.lastError == after.lastError && before.exitCode == after.exitCode
    && before.findings == after.findings
  }

  lemma TheSameStageRemembers(before: Job, after: Job, latest: Option<Verdict>)
    requires Remembers(before, latest) && SameStage(before, after)
    ensures Remembers(after, latest)
  {
  }

  lemma ARenewalIsNotSeen(row: Job, agents: Agents, device: Device, lease: real, now: real, latest: Option<Verdict>)
    requires Remembers(row, latest)
    ensures Remembers(Renew(row, agents, device, lease, now), latest)
  {
  }

  lemma AClaimIsRemembered(c: Cell, device: Device, lease: real, now: real)
    requires Remembers(c.row, c.latest) && c.row.status == Pending
    ensures Remembers(Claimed(c, device, lease, now).row, Claimed(c, device, lease, now).latest)
  {
  }

  lemma ACellStillRemembers(s: System, e: Event, id: JobId)
    requires Inv(s) && AllRemember(s) && id in s.cells && !e.Enqueue? && !e.Heartbeat?
    ensures
      var after := CellAfter(s.cells[id], id, e, s.agents, Picked(s, e));
      Remembers(after.row, after.latest)
  {
    var c := s.cells[id];
    assert CellInv(c);
    if Picked(s, e) == Some(id) {
      assert Eligible(Rows(s), id, e.offered, e.now, e.cap);
    }
    hide CellInv, Inv, Picked, Eligible, Posted, Checked, Taken, Reported, Reclaimed, Claimed, Renew;
    hide Remembers, SameStage;
    match e
    case Claim(device, _, lease, now, _) =>
      if Picked(s, e) == Some(id) { AClaimIsRemembered(c, device, lease, now); }
    case RenewLease(_, device, lease, now) => ARenewalIsNotSeen(c.row, s.agents, device, lease, now, c.latest);
    case Report(_, device, exitCode, error, findings, post, now) =>
      AReportIsRemembered(c, s.agents, device, exitCode, error, findings, post, now);
    case Reclaim(now) => AReclaimIsRemembered(c, s.agents, now);
    case DrainTake =>
      DrainsAreNotSeen(c, 0, Told, false);
      TheSameStageRemembers(c.row, Taken(c).row, c.latest);
    case DrainPost(_, k, post) =>
      DrainsAreNotSeen(c, k, post, false);
      TheSameStageRemembers(c.row, Posted(c, k, post).row, c.latest);
    case CheckDone(_, k, closed) =>
      DrainsAreNotSeen(c, k, Told, closed);
      TheSameStageRemembers(c.row, Checked(c, k, closed).row, c.latest);
  }

  lemma AStepIsRemembered(s: System, e: Event)
    requires Inv(s) && AllRemember(s)
    ensures AllRemember(Next(s, e))
  {
    if !e.Enqueue? && !e.Heartbeat? {
      forall id | id in s.cells { ACellStillRemembers(s, e, id); }
      hide Inv, CellAfter, Remembers;
    }
  }

  lemma {:induction false} EveryRunIsRemembered(s: System, events: seq<Event>)
    requires Inv(s) && AllRemember(s)
    ensures Inv(Run(s, events)) && AllRemember(Run(s, events))
    decreases |events|
  {
    hide Inv, AllRemember, Next;
    if events != [] {
      StepKeeps(s, events[0]);
      AStepIsRemembered(s, events[0]);
      EveryRunIsRemembered(Next(s, events[0]), events[1..]);
    }
  }

  // ---- whether the two surfaces agree ----

  lemma TakeTwice(error: string, n: nat)
    requires n <= MAX_ERROR_CHARS
    ensures Take(Take(error, MAX_ERROR_CHARS), n) == Take(error, n)
  {
  }

  lemma SameHead(head: string, a: string, b: string, n: nat)
    ensures
      var room := if |head| > n then 0 else n - |head|;
      Take(head + a, n) == Take(head + b, n) <==> Take(a, room) == Take(b, room)
  {
    if |head| <= n {
      var room := n - |head|;
      assert Take(head + a, n) == head + Take(a, room);
      assert Take(head + b, n) == head + Take(b, room);
      assert (head + Take(a, room))[|head|..] == Take(a, room);
      assert (head + Take(b, room))[|head|..] == Take(b, room);
    } else {
      assert Take(head + a, n) == Take(head, n) == Take(head + b, n);
    }
  }

  /** A sentence that counts another attempt, or none left, is another sentence. */
  lemma AnotherCountIsAnotherSentence(next: nat, told: string, now: string, describe: string -> string)
    requires 0 < next < 9
    ensures Rendered(LostRetrying(next, told), describe) != Rendered(LostRetrying(next + 1, now), describe)
    ensures Rendered(LostRetrying(next, told), describe) != Rendered(LostForGood(next, now), describe)
    ensures Rendered(LostRetrying(next, told), describe) != RUNNING_TITLE
    ensures Rendered(LostRetrying(next, told), describe) != QUEUED_TITLE
  {
    var said := Rendered(LostRetrying(next, told), describe);
    var again := Rendered(LostRetrying(next + 1, now), describe);
    var gone := Rendered(LostForGood(next, now), describe);
    assert said[28] == ('0' as int + next) as char && again[28] == ('0' as int + next + 1) as char;
    assert said[20] == ',' && gone[20] == ' ';
    assert said[16] == 'l' && RUNNING_TITLE[16] == 'i';
    assert said[0] == 'd' && QUEUED_TITLE[0] == 'q';
  }

  /** What a record and its newest verdict must have in common for their sentences to agree. */
  predicate SaysTheSame(row: Job, told: Text, reading: Reading) {
    match row.status
    case Running => false
    case Success => true
    case Failure =>
      told.FailedRun? &&
      (told.findings.unfinished.Some? ||
       Take(Behind(reading.describe(reading.redact(Take(told.findings.log, MAX_LOG_CHARS)))), Room(told))
       == Take(Behind(reading.describe(told.findings.log)), Room(told)))
    case _ =>
      && row.lastError.Some?
      && Take(reading.redact(row.lastError.value), Room(told)) == Take(row.lastError.value, Room(told))
  }

  lemma AFailedRunsTitle(row: Job, told: Text, reading: Reading)
    requires row.status == Failure && Remembers(row, Some(Verdict(FailureState, told)))
    ensures TitleFor(row, reading) == Rendered(told, reading.describe) <==> SaysTheSame(row, told, reading)
  {
    var findings := Redacted(row, reading.redact).findings.value;
    var title := FailedRun(told.exitCode, findings);
    assert TitleFor(row, reading) == Rendered(title, reading.describe);
    SameHead(Head(told), Tail(title, reading.describe), Tail(told, reading.describe), MAX_STATUS_DESCRIPTION);
  }

  /** What a waiting or dead record with an error is titled. */
  lemma ALossIsTitled(row: Job, reading: Reading)
    requires (row.status == Pending || row.status == Dead) && row.lastError.Some? && row.lastError.value != ""
    ensures
      var shown := reading.redact(row.lastError.value);
      TitleFor(row, reading)
      == if row.status == Pending && shown == "" then QUEUED_TITLE
         else Rendered(LostDescription(row, shown).text, reading.describe)
  {
    hide Rendered;
  }

  lemma ALostRunsTitle(row: Job, told: Text, state: CommitState, reading: Reading)
    requires || (row.status == Pending && row.attempts < MAX_ATTEMPTS)
             || (row.status == Dead && row.attempts == MAX_ATTEMPTS)
    requires Remembers(row, Some(Verdict(state, told)))
    ensures TitleFor(row, reading) == Rendered(told, reading.describe) <==> SaysTheSame(row, told, reading)
  {
    var shown := reading.redact(row.lastError.value);
    var title := LostDescription(row, shown).text;
    ALossIsTitled(row, reading);
    TakeTwice(told.error, if Room(told) <= MAX_ERROR_CHARS then Room(told) else 0);
    if told.LostRetrying? {
      assert title == LostRetrying(told.next, shown);
    } else {
      assert title == LostForGood(told.attempts, shown);
    }
    SameLoss(told, title, reading.describe);
    if row.status == Pending && shown == "" {
      AnotherCountIsAnotherSentence(told.next, told.error, "", reading.describe);
      assert |Take(row.lastError.value, Room(told))| > 0;
    }
    hide Rendered, TitleFor, Room;
  }

  /** Two losses with one count read alike exactly when what fits of their errors is the same. */
  lemma SameLoss(told: Text, title: Text, describe: string -> string)
    requires || (told.LostRetrying? && told.next < 10 && title.LostRetrying? && title.next == told.next)
             || (told.LostForGood? && told.attempts < 10 && title.LostForGood? && title.attempts == told.attempts)
    ensures 0 < Room(told) <= MAX_ERROR_CHARS
    ensures Rendered(title, describe) == Rendered(told, describe)
       <==> Take(title.error, Room(told)) == Take(told.error, Room(told))
  {
    AHeadLeavesRoom(told);
    assert Head(title) == Head(told);
    SameHead(Head(told), title.error, told.error, MAX_STATUS_DESCRIPTION);
    hide Head, Digits;
  }

  lemma AHeadLeavesRoom(told: Text)
    requires (told.LostRetrying? && told.next < 10) || (told.LostForGood? && told.attempts < 10)
    ensures 0 < Room(told) <= MAX_ERROR_CHARS
  {
  }

  /** What a record running again is titled. */
  lemma ARunningLossIsTitled(row: Job, reading: Reading)
    requires row.status == Running && row.lastError.Some? && row.lastError.value != ""
    ensures
      var shown := reading.redact(row.lastError.value);
      TitleFor(row, reading)
      == if shown == "" then RUNNING_TITLE else Rendered(LostDescription(row, shown).text, reading.describe)
  {
    hide Rendered;
  }

  lemma ARunningTitle(row: Job, told: Text, state: CommitState, reading: Reading)
    requires row.status == Running && 1 <= row.attempts <= MAX_ATTEMPTS
    requires Remembers(row, Some(Verdict(state, told)))
    ensures TitleFor(row, reading) != Rendered(told, reading.describe)
  {
    var shown := reading.redact(row.lastError.value);
    ARunningLossIsTitled(row, reading);
    AnotherCountIsAnotherSentence(told.next, told.error, shown, reading.describe);
    hide Rendered, TitleFor;
  }

  /**
   * A check's title is the sentence of the newest commit status if and only if the run is not
   * running again and redaction, with the length a log is kept to, leaves what the status shows.
   */
  lemma TheTitleIsTheStatusExactlyWhen(events: seq<Event>, id: JobId, reading: Reading)
    requires id in Run(EMPTY, events).cells && Run(EMPTY, events).cells[id].latest.Some?
    ensures
      var c := Run(EMPTY, events).cells[id];
      var told := c.latest.value.text;
      TitleFor(c.row, reading) == Rendered(told, reading.describe) <==> SaysTheSame(c.row, told, reading)
  {
    EveryRunIsRemembered(EMPTY, events);
    var c := Run(EMPTY, events).cells[id];
    assert Remembers(c.row, c.latest) && CellInv(c);
    hide Run, Inv, Accounted, Lost, OneCustodian, CopiesAreLatest, InOrder, Remembers, Rendered, TitleFor, SaysTheSame;
    var verdict := c.latest.value;
    match c.row.status
    case Running =>
      ARunningTitle(c.row, verdict.text, verdict.state, reading);
      NothingSaysIt(c.row, verdict.text, reading);
    case Failure => AFailedRunsTitle(c.row, verdict.text, reading);
    case Success => APassedRunsTitle(c.row, c.latest, reading);
    case _ => ALostRunsTitle(c.row, verdict.text, verdict.state, reading);
  }

  lemma NothingSaysIt(row: Job, told: Text, reading: Reading)
    requires row.status == Running
    ensures !SaysTheSame(row, told, reading)
  {
  }

  lemma APassedRunsTitle(row: Job, latest: Option<Verdict>, reading: Reading)
    requires row.status == Success && Remembers(row, latest)
    ensures TitleFor(row, reading) == Rendered(latest.value.text, reading.describe)
    ensures SaysTheSame(row, latest.value.text, reading)
  {
  }

  // ---- runs that reach a title unlike the status ----

  // A fresh run whose device went silent, taken back and given to another device.
  function LostOnce(id: JobId, device: Device, lease: real): System {
    var row := FreshRun(id, device, lease).cells[id].row;
    var told := LostDescription(row, LEASE_LOST);
    System(map[id := Cell(Release(row, lease + 1.0, LEASE_LOST, Some(told)), [], [], Some(told))], map[])
  }

  lemma ALostRunIsReached(id: JobId, device: Device, lease: real)
    requires lease > 0.0
    ensures
      Run(EMPTY, [Enqueue(id, "", {}, None, 0.0), Claim(device, {}, lease, 0.0, None)] + [Reclaim(lease + 1.0)])
      == LostOnce(id, device, lease)
  {
    AFreshRunIsReached(id, device, lease);
    var start, reclaim := FreshRun(id, device, lease), Reclaim(lease + 1.0);
    RunConcat(EMPTY, [Enqueue(id, "", {}, None, 0.0), Claim(device, {}, lease, 0.0, None)], [reclaim]);
    assert Next(start, reclaim).cells == LostOnce(id, device, lease).cells;
    hide Next;
    assert Run(start, [reclaim]) == Run(Next(start, reclaim), []);
  }

  /** Before any verdict is decided a check's title says that the run is queued, or in progress. */
  lemma ATitleBeforeAnyVerdict(events: seq<Event>, id: JobId, reading: Reading)
    requires id in Run(EMPTY, events).cells && Run(EMPTY, events).cells[id].latest.None?
    ensures
      var row := Run(EMPTY, events).cells[id].row;
      && row.status in {Pending, Running}
      && TitleFor(row, reading)
         == if row.status == Running then "device pool run in progress" else "queued on the device pool"
  {
    EveryRunIsRemembered(EMPTY, events);
    var c := Run(EMPTY, events).cells[id];
    assert Remembers(c.row, c.latest) && CellInv(c);
    hide Run, Inv, Accounted, OneCustodian, CopiesAreLatest, InOrder;
  }

  /** A run lost once and claimed again is one whose title counts a second loss. */
  lemma ATitleMayCountALossTooMany(id: JobId, device: Device, other: Device, lease: real, reading: Reading)
    requires lease > 0.0
    ensures
      var events := [Enqueue(id, "", {}, None, 0.0), Claim(device, {}, lease, 0.0, None)] + [Reclaim(lease + 1.0)]
                    + [Claim(other, {}, lease, lease + 31.0, None)];
      var t := Run(EMPTY, events);
      && id in t.cells && t.cells[id].row.status.Running? && t.cells[id].latest.Some?
      && t.cells[id].latest.value.text == LostRetrying(2, LEASE_LOST)
      && (reading.redact(LEASE_LOST) == LEASE_LOST ==>
            TitleFor(t.cells[id].row, reading) == Rendered(LostRetrying(3, LEASE_LOST), reading.describe))
  {
    var events := [Enqueue(id, "", {}, None, 0.0), Claim(device, {}, lease, 0.0, None)] + [Reclaim(lease + 1.0)];
    var claim, lost := Claim(other, {}, lease, lease + 31.0, None), LostOnce(id, device, lease);
    ALostRunIsReached(id, device, lease);
    RunConcat(EMPTY, events, [claim]);
    assert BackoffSeconds(1) == 30.0;
    AloneItIsClaimed(lost, id, claim);
    hide Next, Rendered;
    assert Run(lost, [claim]) == Run(Next(lost, claim), []);
  }

  /** Any error a device reports is one a released run keeps, so what redaction does to it shows. */
  lemma ATitleShowsWhatRedactionLeaves(id: JobId, device: Device, lease: real, error: string, findings: Findings,
                                       reading: Reading)
    requires lease > 0.0 && error != ""
    ensures
      var events := [Enqueue(id, "", {}, None, 0.0), Claim(device, {}, lease, 0.0, None)]
                    + [Report(id, device, None, error, findings, Told, 0.0)];
      var t := Run(EMPTY, events);
      && id in t.cells && t.cells[id].latest == Some(Verdict(PendingState, LostRetrying(2, error)))
      && var kept, room := Take(error, MAX_ERROR_CHARS), Room(LostRetrying(2, error));
         (TitleFor(t.cells[id].row, reading) == Rendered(LostRetrying(2, error), reading.describe)
          <==> Take(reading.redact(kept), room) == Take(kept, room))
  {
    var events := [Enqueue(id, "", {}, None, 0.0), Claim(device, {}, lease, 0.0, None)];
    var report, start := Report(id, device, None, error, findings, Told, 0.0), FreshRun(id, device, lease);
    AFreshRunIsReached(id, device, lease);
    RunConcat(EMPTY, events, [report]);
    var t := Next(start, report);
    assert t.cells[id].latest == Some(Verdict(PendingState, LostRetrying(2, error)));
    assert t.cells[id].row.status.Pending? && t.cells[id].row.lastError == Some(Take(error, MAX_ERROR_CHARS));
    hide Next, Rendered, TitleFor;
    assert Run(start, [report]) == Run(t, []);
    TheTitleIsTheStatusExactlyWhen(events + [report], id, reading);
  }

  /**
   * A check is concluded exactly when the newest commit status is final: succeeded on success,
   * timed out on the exit code that means it, cancelled when a run out of attempts keeps the text of
   * a lost lease as its error, whoever gave it, and failed otherwise.
   */
  lemma AConclusionIsAFinalStatus(events: seq<Event>, id: JobId)
    requires id in Run(EMPTY, events).cells && Run(EMPTY, events).cells[id].latest.Some?
    ensures
      var c := Run(EMPTY, events).cells[id];
      var status, conclusion := c.latest.value, ConclusionFor(c.row);
      && (conclusion.None? <==> status.state == PendingState)
      && (conclusion == Some(Succeeded) <==> status.text == Passed)
      && (conclusion == Some(TimedOut) <==> status.text.FailedRun? && status.text.exitCode == 130)
      && (conclusion == Some(Cancelled) <==>
            status.text.LostForGood? && Take(status.text.error, MAX_ERROR_CHARS) == LEASE_LOST)
  {
    EveryRunIsRemembered(EMPTY, events);
    var c := Run(EMPTY, events).cells[id];
    assert Remembers(c.row, c.latest) && CellInv(c);
    hide Run, Inv, Accounted, OneCustodian, CopiesAreLatest, InOrder;
  }

  // ---- what ended a run the check calls cancelled ----

  /** The event that last decided a verdict for the job, or the one before them all. */
  ghost function LastDecision(s: System, events: seq<Event>, id: JobId, before: Option<Event>): Option<Event>
    decreases |events|
  {
    if events == [] then before
    else
      var e := events[0];
      LastDecision(Next(s, e), events[1..], id, if Decided(s, e, id) then Some(e) else before)
  }

  ghost predicate Decided(s: System, e: Event, id: JobId) {
    id in s.cells && Decides(s.cells[id], id, e, s.agents)
  }

  /** A device error that the record keeps as the very text of a lost lease. */
  predicate SpellsALostLease(e: Event, id: JobId) {
    e.Report? && e.id == id && Take(e.error, MAX_ERROR_CHARS) == LEASE_LOST
  }

  /** Whether the event decides a verdict that the record keeps as a lost lease. */
  predicate TellsALostLease(e: Option<Event>, id: JobId) {
    e.Some? && (e.value.Reclaim? || SpellsALostLease(e.value, id))
  }

  predicate IsLoss(text: Text) {
    text.LostRetrying? || text.LostForGood?
  }

  // The newest verdict tells of a lost lease exactly when `reclaimed`.
  ghost predicate TellsOfALease(latest: Option<Verdict>, reclaimed: bool) {
    reclaimed <==> latest.Some? && IsLoss(latest.value.text)
                   && Take(latest.value.text.error, MAX_ERROR_CHARS) == LEASE_LOST
  }

  lemma ADecisionTellsItsKind(c: Cell, id: JobId, e: Event, agents: Agents, picked: Option<JobId>, before: bool)
    requires TellsOfALease(c.latest, before)
    ensures TellsOfALease(CellAfter(c, id, e, agents, picked).latest,
                          if Decides(c, id, e, agents) then TellsALostLease(Some(e), id) else before)
  {
    hide Lapsed, Release, OweStatus, RestoreStatus;
    assert e.Report? && e.id == id && Decides(c, id, e, agents) ==> e.error != "" || e.exitCode.Some?;
    hide Settle;
    assert Take(LEASE_LOST, MAX_ERROR_CHARS) == LEASE_LOST;
    if e.Report? && e.id == id && Decides(c, id, e, agents) { ALossKeepsItsError(c.row, e); }
  }

  lemma ALossKeepsItsError(row: Job, e: Event)
    requires e.Report? && (e.error != "" || e.exitCode.Some?)
    ensures
      var text := ReportVerdict(row, e.exitCode, e.error, e.findings).text;
      IsLoss(text) <==> e.error != "" && IsLoss(text) && text.error == e.error
  {
  }

  lemma {:induction false} LastDecisionTellsItsKind(s: System, events: seq<Event>, id: JobId, before: Option<Event>)
    requires if id in s.cells then TellsOfALease(s.cells[id].latest, TellsALostLease(before, id)) else before.None?
    ensures
      var t, last := Run(s, events), LastDecision(s, events, id, before);
      if id in t.cells then TellsOfALease(t.cells[id].latest, TellsALostLease(last, id)) else last.None?
    decreases |events|
  {
    if events != [] {
      var e := events[0];
      if id in s.cells {
        ADecisionTellsItsKind(s.cells[id], id, e, s.agents, Picked(s, e), TellsALostLease(before, id));
        AnEventActsOnItsCell(s, e, id);
      }
      hide Decides, CellAfter, Picked, TellsOfALease, SpellsALostLease;
      assert id !in s.cells && id in Next(s, e).cells ==> Next(s, e).cells[id].latest.None?;
      NothingTellsOfNoLease();
      hide Next;
      LastDecisionTellsItsKind(Next(s, e), events[1..], id, if Decided(s, e, id) then Some(e) else before);
    }
  }

  lemma NothingTellsOfNoLease()
    ensures TellsOfALease(None, false)
  {
  }

  lemma AnEventActsOnItsCell(s: System, e: Event, id: JobId)
    requires id in s.cells
    ensures id in Next(s, e).cells
    ensures e.Enqueue? || e.Heartbeat? ==> Next(s, e).cells[id] == s.cells[id] && !Decides(s.cells[id], id, e, s.agents)
    ensures !e.Enqueue? && !e.Heartbeat? ==>
              Next(s, e).cells[id] == CellAfter(s.cells[id], id, e, s.agents, Picked(s, e))
  {
    hide Picked, CellAfter, Settle;
  }

  /**
   * Over every run a check is cancelled if and only if the run is out of attempts and the event that
   * decided its verdict last is a reclaim, or a report whose error is the text of a lost lease.
   */
  lemma CancelledMeansALostLeaseWasToldLast(events: seq<Event>, id: JobId)
    requires id in Run(EMPTY, events).cells
    ensures
      var c, last := Run(EMPTY, events).cells[id], LastDecision(EMPTY, events, id, None);
      ConclusionFor(c.row) == Some(Cancelled) <==> c.row.status.Dead? && TellsALostLease(last, id)
  {
    EveryRunIsRemembered(EMPTY, events);
    LastDecisionTellsItsKind(EMPTY, events, id, None);
    var c := Run(EMPTY, events).cells[id];
    assert Remembers(c.row, c.latest) && CellInv(c);
    hide Run, Inv, Accounted, Lost, OneCustodian, CopiesAreLatest, InOrder, LastDecision, TellsALostLease;
  }

  lemma {:induction false} TheLastDecisionIsAnEvent(s: System, events: seq<Event>, id: JobId, before: Option<Event>)
    ensures
      var last := LastDecision(s, events, id, before);
      last == before || (last.Some? && last.value in events)
    decreases |events|
  {
    hide Next, Decided;
    if events != [] {
      var e := events[0];
      TheLastDecisionIsAnEvent(Next(s, e), events[1..], id, if Decided(s, e, id) then Some(e) else before);
    }
  }

  /** Where no device ever reports that text, a cancelled run lost its last attempt to a reclaim. */
  lemma CancelledMeansAReclaimTookTheLastAttempt(events: seq<Event>, id: JobId)
    requires id in Run(EMPTY, events).cells
    requires forall i | 0 <= i < |events| :: !SpellsALostLease(events[i], id)
    ensures
      var c, last := Run(EMPTY, events).cells[id], LastDecision(EMPTY, events, id, None);
      ConclusionFor(c.row) == Some(Cancelled) <==> c.row.status.Dead? && last.Some? && last.value.Reclaim?
  {
    CancelledMeansALostLeaseWasToldLast(events, id);
    TheLastDecisionIsAnEvent(EMPTY, events, id, None);
    hide Run, ConclusionFor, LastDecision, SpellsALostLease;
  }

  /** A device that reports that text on a run's last attempt has its check cancelled, though no lease was lost. */
  lemma ADeviceErrorMayReadAsCancelled(c: Cell, agents: Agents, device: Device, error: string, findings: Findings,
                                       post: Post, now: real)
    requires HoldsLease(c.row, agents, device, now) && c.row.attempts == MAX_ATTEMPTS
    requires Take(error, MAX_ERROR_CHARS) == LEASE_LOST
    ensures
      var after := Reported(c, agents, device, None, error, findings, post, now);
      after.row.status.Dead? && ConclusionFor(after.row) == Some(Cancelled)
  {
    hide BackoffSeconds;
  }
}
