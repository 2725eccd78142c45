/**
 * One signed delivery and everything that may act on it: request handlers, the replay loop, and a
 * broker that stops and starts again. Any number of them run at once; what orders them is the
 * state column of the delivery's row.
 */
module Deliveries {
  import opened Prelude

  datatype State = Ready | Attempting | Accepted | Rejected | Uncertain

  // How GitHub's dispatch call ends: it started a run, it answered with a failure (no code when
  // the request never arrived), or the call broke off in some other way.
  datatype Answer = Started | DispatchError(code: Option<int>) | Broken

  /** The state one answer settles a delivery in. */
  function Outcome(answer: Answer): State {
    match answer
    case Started => Accepted
    case DispatchError(code) =>
      if code.Some? && (code.value >= 500 || code.value == 403 || code.value == 429) then Uncertain else Rejected
    case Broken => Uncertain
  }

  /**
   * What an answer says of the run: one that started a run means there is one; a call that never
   * arrived, or was refused for good, means there is none; a server error, a refusal for now and a
   * broken call leave it open.
   */
  predicate Possible(answer: Answer, runExists: bool) {
    match answer
    case Started => runExists
    case DispatchError(None) => !runExists
    case DispatchError(Some(code)) => runExists ==> code >= 500 || code in {403, 429}
    case Broken => true
  }

  predicate MayRun(answer: Answer) {
    Possible(answer, true)
  }

  predicate ShouldFallback(state: State) {
    state == Rejected
  }

  predicate IsSettled(state: State) {
    state in {Accepted, Rejected, Uncertain}
  }

  // Where one handler or replay stands with the delivery.
  datatype Phase =
    | Looking
    | Sending
    | InFlight
    | Answered(answer: Answer)
    | Returned(state: State)
    | Refusing
    | Done

  type Process = nat

  // The row, the processes, and what happened outside: calls to GitHub, hand-offs to a device,
  // and whether there is a workflow run.
  datatype World = World(row: Option<State>, procs: map<Process, Phase>, calls: nat, handoffs: nat, runExists: bool)

  datatype Event =
    | Register
    | Arrive(p: Process)
    | RejectReady(p: Process)
    | Claim(p: Process)
    | Call(p: Process, starts: bool)
    | Reply(p: Process, answer: Answer)
    | Finish(p: Process, recorded: bool)
    | HandOff(p: Process)
    | GiveUp(p: Process)
    | Crash
    | Recover

  const EMPTY := World(None, map[], 0, 0, false)

  predicate At(w: World, p: Process, phase: Phase) {
    p in w.procs && w.procs[p] == phase
  }

  function Moved(w: World, p: Process, phase: Phase): World {
    w.(procs := w.procs[p := phase])
  }

  /** A process that was told the delivery is refused and may hand it to a device. */
  predicate MayHandOff(phase: Phase) {
    phase.Refusing? || (phase.Returned? && ShouldFallback(phase.state))
  }

  function Next(w: World, e: Event): World {
    match e
    case Register => if w.row.None? then w.(row := Some(Ready)) else w
    case Arrive(p) => if p in w.procs then w else Moved(w, p, Looking)
    case RejectReady(p) =>
      if At(w, p, Looking) && w.row == Some(Ready) then Moved(w, p, Refusing).(row := Some(Rejected)) else w
    case Claim(p) =>
      if !At(w, p, Looking) then w
      else if w.row == Some(Ready) then Moved(w, p, Sending).(row := Some(Attempting))
      else Moved(w, p, Done)
    case Call(p, starts) =>
      if At(w, p, Sending) then Moved(w, p, InFlight).(calls := w.calls + 1, runExists := starts) else w
    case Reply(p, answer) =>
      if At(w, p, InFlight) && Possible(answer, w.runExists) then Moved(w, p, Answered(answer)) else w
    case Finish(p, recorded) =>
      if p in w.procs && w.procs[p].Answered? then
        var outcome := Outcome(w.procs[p].answer);
        if recorded && w.row == Some(Attempting) then Moved(w, p, Returned(outcome)).(row := Some(outcome))
        else Moved(w, p, Returned(Uncertain))
      else w
    case HandOff(p) =>
      if p in w.procs && MayHandOff(w.procs[p]) then Moved(w, p, Done).(handoffs := w.handoffs + 1) else w
    case GiveUp(p) =>
      if p in w.procs && (w.procs[p].Looking? || w.procs[p].Returned? || w.procs[p].Refusing?) then Moved(w, p, Done)
      else w
    case Crash => w.(procs := map[])
    case Recover => if w.row == Some(Attempting) then w.(row := Some(Uncertain)) else w
  }

  function Run(w: World, events: seq<Event>): World
    decreases |events|
  {
    if events == [] then w else Run(Next(w, events[0]), events[1..])
  }

  // ---- the invariant ----

  predicate Busy(phase: Phase) {
    phase.Sending? || phase.InFlight? || phase.Answered?
  }

  /** One process at most is between its claim and its result, and the row says so. */
  ghost predicate OneClaimant(w: World) {
    && (forall p, q | p in w.procs && q in w.procs && Busy(w.procs[p]) && Busy(w.procs[q]) :: p == q)
    && (forall p | p in w.procs && Busy(w.procs[p]) :: w.row == Some(Attempting) || w.row == Some(Uncertain))
  }

  /** GitHub was called at most once, by the claimant, and an answer fits what became of the call. */
  ghost predicate OneCall(w: World) {
    && w.calls <= 1
    && (w.runExists ==> w.calls == 1)
    && (forall p | p in w.procs && w.procs[p].Sending? :: w.calls == 0)
    && (forall p | p in w.procs && (w.procs[p].InFlight? || w.procs[p].Answered?) :: w.calls == 1)
    && (forall p | p in w.procs && w.procs[p].Answered? :: Possible(w.procs[p].answer, w.runExists))
  }

  /** The right to hand the delivery over exists once, only for a refused row with no run behind it. */
  ghost predicate OneHandOff(w: World) {
    && w.handoffs <= 1
    && (forall p, q | p in w.procs && q in w.procs && MayHandOff(w.procs[p]) && MayHandOff(w.procs[q]) :: p == q)
    && (forall p | p in w.procs && MayHandOff(w.procs[p]) :: w.row == Some(Rejected) && w.handoffs == 0)
    && (w.handoffs == 1 ==> w.row == Some(Rejected))
    && (w.row == Some(Rejected) ==> !w.runExists)
    && (w.row == Some(Accepted) ==> w.runExists)
  }

  ghost predicate Untouched(w: World) {
    w.row.None? || w.row == Some(Ready) ==>
      && w.calls == 0 && w.handoffs == 0 && !w.runExists
      && forall p | p in w.procs :: w.procs[p] in {Looking, Done}
  }

  ghost predicate Inv(w: World) {
    OneClaimant(w) && OneCall(w) && OneHandOff(w) && Untouched(w)
  }

  /** An outcome is definite exactly when the answer leaves only one possibility open. */
  lemma OutcomeFollowsTheRun(answer: Answer)
    ensures IsSettled(Outcome(answer))
    ensures Outcome(answer) == Accepted <==> !Possible(answer, false)
    ensures Outcome(answer) == Rejected <==> !Possible(answer, true)
    ensures Outcome(answer) == Uncertain <==> Possible(answer, false) && Possible(answer, true)
  {
  }

  lemma StepKeepsOneClaimant(w: World, e: Event)
    requires Inv(w)
    ensures OneClaimant(Next(w, e)) && Untouched(Next(w, e))
  {
    hide OneCall, OneHandOff, Possible, Outcome;
    if e.Finish? && e.p in w.procs && w.procs[e.p].Answered? {
      OutcomeFollowsTheRun(w.procs[e.p].answer);
    }
  }

  lemma StepKeepsOneCall(w: World, e: Event)
    requires Inv(w)
    ensures OneCall(Next(w, e))
  {
    hide OneHandOff, Possible, Outcome;
  }

  lemma StepKeepsOneHandOff(w: World, e: Event)
    requires Inv(w)
    ensures OneHandOff(Next(w, e))
  {
    hide Possible, Outcome;
    if e.Finish? && e.p in w.procs && w.procs[e.p].Answered? {
      assert Busy(w.procs[e.p]);
      OutcomeFollowsTheRun(w.procs[e.p].answer);
    }
  }

  lemma StepKeeps(w: World, e: Event)
    requires Inv(w)
    ensures Inv(Next(w, e))
    ensures w.row.Some? && IsSettled(w.row.value) ==> Next(w, e).row == w.row
  {
    hide OneClaimant, OneCall, OneHandOff, Untouched;
    StepKeepsOneClaimant(w, e);
    StepKeepsOneCall(w, e);
    StepKeepsOneHandOff(w, e);
  }

  /**
   * Over any order of registrations, requests, replays, crashes and recoveries: GitHub is called
   * at most once, a device is handed the delivery at most once, and it is never handed one that
   * has a workflow run, whatever GitHub made of a call it did not clearly refuse.
   */
  lemma {:induction false} AtMostOnce(w: World, events: seq<Event>)
    requires Inv(w)
    ensures
      var after := Run(w, events);
      && Inv(after)
      && after.calls <= 1
      && after.handoffs <= 1
      && !(after.handoffs == 1 && after.runExists)
      && (after.row == Some(Rejected) ==> !after.runExists)
      && (after.row == Some(Accepted) ==> after.runExists && after.handoffs == 0 && after.calls == 1)
    decreases |events|
  {
    if events != [] {
      hide Inv, Next;
      StepKeeps(w, events[0]);
      AtMostOnce(Next(w, events[0]), events[1..]);
    }
  }

  /** A settled delivery keeps its state, and once handed over it can never reach GitHub. */
  lemma {:induction false} SettledDeliveriesStaySettled(w: World, events: seq<Event>)
    requires Inv(w) && w.row.Some? && IsSettled(w.row.value)
    ensures Run(w, events).row == w.row
    ensures w.handoffs == 1 ==> Run(w, events).calls == w.calls && Run(w, events).handoffs == 1
    decreases |events|
  {
    if events != [] {
      StepKeeps(w, events[0]);
      var next := Next(w, events[0]);
      assert w.handoffs == 1 ==> next.calls == w.calls && next.handoffs == 1;
      hide Inv, Next;
      SettledDeliveriesStaySettled(next, events[1..]);
    }
  }

  // A delivery registered, and one process that looks at it.
  const LOOKING_ALONE := World(Some(Ready), map[0 := Looking], 0, 0, false)

  lemma OneArrives()
    ensures Run(EMPTY, [Register, Arrive(0)]) == LOOKING_ALONE
  {
    RunOfTwo(EMPTY, Register, Arrive(0));
  }

  /** A delivery refused before it was sent reaches a device. */
  lemma AnUnsentRefusalReachesADevice()
    ensures Run(EMPTY, [Register, Arrive(0), RejectReady(0), HandOff(0)])
         == World(Some(Rejected), map[0 := Done], 0, 1, false)
  {
    var start, end := [Register, Arrive(0)], [RejectReady(0), HandOff(0)];
    OneArrives();
    RunOfTwo(LOOKING_ALONE, RejectReady(0), HandOff(0));
    hide Run;
    RunInTwo(EMPTY, start, end);
    assert start + end == [Register, Arrive(0), RejectReady(0), HandOff(0)];
  }

  /** So does one that GitHub was called for and refused for good, with one call and no run. */
  lemma ASentRefusalReachesADevice(code: Option<int>)
    requires code.None? || (code.value < 500 && code.value != 403 && code.value != 429)
    ensures Run(EMPTY, [Register, Arrive(0)] + [Claim(0), Call(0, false)]
                       + [Reply(0, DispatchError(code)), Finish(0, true)] + [HandOff(0)])
         == World(Some(Rejected), map[0 := Done], 1, 1, false)
  {
    var calling := World(Some(Attempting), map[0 := InFlight], 1, 0, false);
    var returned := World(Some(Rejected), map[0 := Returned(Rejected)], 1, 0, false);
    OneArrives();
    RunOfTwo(LOOKING_ALONE, Claim(0), Call(0, false));
    RunOfTwo(calling, Reply(0, DispatchError(code)), Finish(0, true));
    assert Run(LOOKING_ALONE, [Claim(0), Call(0, false)]) == calling;
    assert Run(calling, [Reply(0, DispatchError(code)), Finish(0, true)]) == returned;
    OneHandOffIsTaken(0, returned);
    hide Run, Next;
    var start, sent := [Register, Arrive(0)], [Claim(0), Call(0, false)];
    RunInTwo(EMPTY, start, sent);
    RunInTwo(EMPTY, start + sent, [Reply(0, DispatchError(code)), Finish(0, true)]);
    RunInTwo(EMPTY, start + sent + [Reply(0, DispatchError(code)), Finish(0, true)], [HandOff(0)]);
  }

  /** And one GitHub started a run for is accepted, with that run. */
  lemma AStartedRunIsAccepted()
    ensures Run(EMPTY, [Register, Arrive(0)] + [Claim(0), Call(0, true)] + [Reply(0, Started), Finish(0, true)])
         == World(Some(Accepted), map[0 := Returned(Accepted)], 1, 0, true)
  {
    var calling := World(Some(Attempting), map[0 := InFlight], 1, 0, true);
    OneArrives();
    RunOfTwo(LOOKING_ALONE, Claim(0), Call(0, true));
    RunOfTwo(calling, Reply(0, Started), Finish(0, true));
    assert Run(LOOKING_ALONE, [Claim(0), Call(0, true)]) == calling;
    assert Run(calling, [Reply(0, Started), Finish(0, true)])
        == World(Some(Accepted), map[0 := Returned(Accepted)], 1, 0, true);
    hide Run, Next;
    var start, sent := [Register, Arrive(0)], [Claim(0), Call(0, true)];
    RunInTwo(EMPTY, start, sent);
    RunInTwo(EMPTY, start + sent, [Reply(0, Started), Finish(0, true)]);
  }

  /** A restart forgets every process, and leaves an attempt nobody finished uncertain and all else as it was. */
  lemma ARestartSettlesWhatWasLeft(w: World)
    ensures Run(w, [Crash, Recover])
         == World(if w.row == Some(Attempting) then Some(Uncertain) else w.row, map[], w.calls, w.handoffs, w.runExists)
  {
    RunOfTwo(w, Crash, Recover);
  }

  /** How many calls to GitHub a run makes. */
  ghost function CallsIn(w: World, events: seq<Event>): nat
    decreases |events|
  {
    if events == [] then 0
    else
      (if events[0].Call? && At(w, events[0].p, Sending) then 1 else 0) + CallsIn(Next(w, events[0]), events[1..])
  }

  /** How often a run hands the delivery to a device. */
  ghost function HandOffsIn(w: World, events: seq<Event>): nat
    decreases |events|
  {
    if events == [] then 0
    else
      var e := events[0];
      (if e.HandOff? && (At(w, e.p, Refusing) || At(w, e.p, Returned(Rejected))) then 1 else 0)
      + HandOffsIn(Next(w, e), events[1..])
  }

  /** Every call and every hand-off is counted, and nothing else is. */
  lemma {:induction false} CallsAndHandOffsAreCounted(w: World, events: seq<Event>)
    ensures Run(w, events).calls == w.calls + CallsIn(w, events)
    ensures Run(w, events).handoffs == w.handoffs + HandOffsIn(w, events)
    decreases |events|
  {
    if events != [] {
      CallsAndHandOffsAreCounted(Next(w, events[0]), events[1..]);
      OneStepIsCounted(w, events[0]);
      hide Next, Run;
      RunUnfolds(w, events);
    }
  }

  lemma RunUnfolds(w: World, events: seq<Event>)
    requires events != []
    ensures Run(w, events) == Run(Next(w, events[0]), events[1..])
  {
    hide Next;
  }

  lemma OneStepIsCounted(w: World, e: Event)
    ensures Next(w, e).calls == w.calls + if e.Call? && At(w, e.p, Sending) then 1 else 0
    ensures Next(w, e).handoffs
         == w.handoffs + if e.HandOff? && (At(w, e.p, Refusing) || At(w, e.p, Returned(Rejected))) then 1 else 0
  {
    hide Possible, Outcome;
  }

  ghost function Progress(phase: Phase): nat {
    match phase
    case Looking => 0
    case Sending => 1
    case InFlight => 2
    case Answered(_) => 3
    case Returned(_) => 4
    case Refusing => 4
    case Done => 5
  }

  /** A process only ever goes on, until a crash forgets it. */
  lemma AProcessOnlyGoesOn(w: World, e: Event, p: Process)
    requires p in w.procs
    ensures
      var next := Next(w, e).procs;
      if e.Crash? then p !in next
      else p in next && (next[p] == w.procs[p] || Progress(next[p]) > Progress(w.procs[p]))
  {
  }

  lemma OneHandOffIsTaken(p: Process, w: World)
    requires At(w, p, Returned(Rejected))
    ensures Run(w, [HandOff(p)]) == w.(procs := w.procs[p := Done], handoffs := w.handoffs + 1)
  {
    RunOfOne(w, HandOff(p));
    hide Run;
  }

  lemma RunOfOne(w: World, a: Event)
    ensures Run(w, [a]) == Next(w, a)
  {
    hide Next;
    assert Run(w, [a]) == Run(Next(w, a), []);
  }

  lemma RunOfTwo(w: World, a: Event, b: Event)
    ensures Run(w, [a, b]) == Next(Next(w, a), b)
  {
    hide Next;
    assert [a, b][1..] == [b] && [b][1..] == [];
    assert Run(w, [a, b]) == Run(Next(w, a), [b]) == Run(Next(Next(w, a), b), []);
  }

  lemma {:induction false} RunInTwo(w: World, first: seq<Event>, second: seq<Event>)
    ensures Run(w, first + second) == Run(Run(w, first), second)
    decreases |first|
  {
    hide Next;
    if first == [] {
      assert first + second == second;
    } else {
      assert (first + second)[0] == first[0] && (first + second)[1..] == first[1..] + second;
      RunInTwo(Next(w, first[0]), first[1..], second);
    }
  }

  lemma TheEmptyWorldIsSound()
    ensures Inv(EMPTY)
  {
  }
}
