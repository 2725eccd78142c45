/** The ledger of metered dispatches, and the monthly ceiling counted from it. */
module Metering {
  import opened Prelude

  const HOSTED_LANE: string := "hosted"
  const REPOSITORY_UNKNOWN: string := "-"

  // An instant, written as its UTC month and the seconds into that month.
  datatype Instant = Instant(month: nat, second: real)

  predicate NotAfter(a: Instant, b: Instant) {
    a.month < b.month || (a.month == b.month && a.second <= b.second)
  }

  /** Where a month's count begins. */
  function MonthStart(t: Instant): Instant {
    Instant(t.month, 0.0)
  }

  datatype Dispatch = Dispatch(repository: string, lane: string, workflow: string, ref: string, createdAt: Instant)

  type Rows = map<nat, Dispatch>

  /** The numbers of the rows a count sees. */
  function Since(rows: Rows, since: Instant, lane: string): set<nat> {
    set id | id in rows && rows[id].lane == lane && NotAfter(since, rows[id].createdAt)
  }

  function Count(rows: Rows, since: Instant, lane: string): nat {
    |Since(rows, since, lane)|
  }

  predicate IsLargest(ids: set<nat>, id: nat) {
    id in ids && forall other | other in ids :: other <= id
  }

  lemma {:induction false} LargestExists(ids: set<nat>)
    requires ids != {}
    ensures exists id :: IsLargest(ids, id)
    decreases ids
  {
    var one :| one in ids;
    if ids == {one} {
      assert IsLargest(ids, one);
    } else {
      var rest := ids - {one};
      assert ids == rest + {one};
      LargestExists(rest);
      var best :| IsLargest(rest, best);
      assert IsLargest(ids, if best < one then one else best);
    }
  }

  /** The row number the table gives next: one above the largest it holds, and one when empty. */
  function NextId(rows: Rows): (id: nat)
    ensures id !in rows
    ensures forall other | other in rows :: other < id
    ensures rows != map[] ==> id - 1 in rows
  {
    if rows == map[] then 1
    else
      LargestExists(rows.Keys);
      assert exists id | id in rows.Keys :: IsLargest(rows.Keys, id);
      var largest :| largest in rows.Keys && IsLargest(rows.Keys, largest);
      largest + 1
  }

  // ---- the ceiling ----

  // A month's allowance, and the price put on each dispatch.
  datatype Ceiling = Ceiling(minutes: real, perRun: real)

  /** A count of dispatches, as the minutes they are assumed to cost. */
  function Minutes(dispatches: nat, ceiling: Ceiling): real {
    dispatches as real * ceiling.perRun
  }

  function SpentMinutes(rows: Rows, ceiling: Ceiling, now: Instant): real {
    Minutes(Count(rows, MonthStart(now), HOSTED_LANE), ceiling)
  }

  function Cost(ceiling: Ceiling, estimate: real): real {
    var floor := if ceiling.perRun > 0.0 then ceiling.perRun else 0.0;
    if estimate > floor then estimate else floor
  }

  /** The ceiling's one comparison. */
  predicate Admits(ceiling: Ceiling, used: real, estimate: real) {
    used + Cost(ceiling, estimate) < ceiling.minutes
  }

  datatype Hold = NoCeiling | OverBudget | Held(id: nat)

  function WithHold(rows: Rows, at: Instant): Rows {
    rows[NextId(rows) := Dispatch(REPOSITORY_UNKNOWN, HOSTED_LANE, "", "", at)]
  }

  /** Read the spend and write the hold as one step, on a clock read once for each. */
  function Reserved(rows: Rows, ceiling: Option<Ceiling>, estimate: real, readAt: Instant, wroteAt: Instant)
    : (Rows, Hold)
  {
    if ceiling.None? then (rows, NoCeiling)
    else if !Admits(ceiling.value, SpentMinutes(rows, ceiling.value, readAt), estimate) then (rows, OverBudget)
    else (WithHold(rows, wroteAt), Held(NextId(rows)))
  }

  function Released(rows: Rows, id: Option<nat>): Rows {
    if id.None? then rows else rows - {id.value}
  }

  function Attributed(rows: Rows, id: Option<nat>, repository: string, workflow: string, ref: string): Rows {
    if id.None? || id.value !in rows then rows
    else rows[id.value := rows[id.value].(repository := repository, workflow := workflow, ref := ref)]
  }

  // ---- runs of the ledger ----

  datatype Event =
    | Reserve(estimate: real, readAt: Instant, wroteAt: Instant)
    | Release(id: Option<nat>, at: Instant)
    | Attribute(id: Option<nat>, repository: string, workflow: string, ref: string, at: Instant)

  function Start(e: Event): Instant {
    if e.Reserve? then e.readAt else e.at
  }

  function End(e: Event): Instant {
    if e.Reserve? then e.wroteAt else e.at
  }

  function Next(rows: Rows, ceiling: Ceiling, e: Event): Rows {
    match e
    case Reserve(estimate, readAt, wroteAt) => Reserved(rows, Some(ceiling), estimate, readAt, wroteAt).0
    case Release(id, _) => Released(rows, id)
    case Attribute(id, repository, workflow, ref, _) => Attributed(rows, id, repository, workflow, ref)
  }

  function Run(rows: Rows, ceiling: Ceiling, events: seq<Event>): Rows
    decreases |events|
  {
    if events == [] then rows else Run(Next(rows, ceiling, events[0]), ceiling, events[1..])
  }

  /** No event starts before the one ahead of it ended, nor ends before it started. */
  ghost predicate Forward(clock: Instant, events: seq<Event>)
    decreases |events|
  {
    events == [] ||
    (NotAfter(clock, Start(events[0])) && NotAfter(Start(events[0]), End(events[0]))
     && Forward(End(events[0]), events[1..]))
  }

  function Clock(start: Instant, events: seq<Event>): Instant {
    if events == [] then start else End(events[|events| - 1])
  }

  /** At every instant from the clock on, the counted minutes stay under the ceiling or are none. */
  ghost predicate UnderCeiling(rows: Rows, ceiling: Ceiling, clock: Instant) {
    forall now: Instant | NotAfter(clock, now) && now.second >= 0.0 ::
      SpentMinutes(rows, ceiling, now) < ceiling.minutes || Count(rows, MonthStart(now), HOSTED_LANE) == 0
  }

  ghost predicate Recorded(rows: Rows, clock: Instant) {
    forall id | id in rows :: NotAfter(rows[id].createdAt, clock) && rows[id].createdAt.second >= 0.0
  }

  lemma CountShrinks(rows: Rows, fewer: Rows, since: Instant, later: Instant)
    requires NotAfter(since, later)
    requires forall id | id in fewer ::
               id in rows && fewer[id].lane == rows[id].lane && fewer[id].createdAt == rows[id].createdAt
    ensures Count(fewer, later, HOSTED_LANE) <= Count(rows, since, HOSTED_LANE)
  {
    SubsetIsNoLarger(Since(fewer, later, HOSTED_LANE), Since(rows, since, HOSTED_LANE));
  }

  lemma FewerDispatchesCostNoMore(some: nat, more: nat, ceiling: Ceiling)
    requires some <= more && ceiling.perRun > 0.0
    ensures Minutes(some, ceiling) <= Minutes(more, ceiling)
  {
  }

  lemma OneMoreDispatchCostsOneRun(n: nat, ceiling: Ceiling)
    ensures Minutes(n + 1, ceiling) == Minutes(n, ceiling) + ceiling.perRun
  {
  }

  lemma AnAdmittedHoldHasRoom(ceiling: Ceiling, used: real, estimate: real)
    requires Admits(ceiling, used, estimate)
    ensures used + ceiling.perRun < ceiling.minutes
  {
  }

  /** A release or an attribution, and the passing of time, never raise the counted minutes. */
  lemma QuietStepStaysUnder(rows: Rows, fewer: Rows, ceiling: Ceiling, clock: Instant, later: Instant)
    requires ceiling.perRun > 0.0 && NotAfter(clock, later) && UnderCeiling(rows, ceiling, clock)
    requires forall id | id in fewer ::
               id in rows && fewer[id].lane == rows[id].lane && fewer[id].createdAt == rows[id].createdAt
    ensures UnderCeiling(fewer, ceiling, later)
  {
    hide Minutes, Count;
    forall now: Instant | NotAfter(later, now) && now.second >= 0.0
      ensures SpentMinutes(fewer, ceiling, now) < ceiling.minutes || Count(fewer, MonthStart(now), HOSTED_LANE) == 0
    {
      CountShrinks(rows, fewer, MonthStart(now), MonthStart(now));
      FewerDispatchesCostNoMore(Count(fewer, MonthStart(now), HOSTED_LANE), Count(rows, MonthStart(now), HOSTED_LANE),
                                ceiling);
      assert NotAfter(clock, now);
    }
  }

  /** Where the month did not turn, a hold adds one to what the read saw; where it did, it is alone. */
  lemma AHoldAddsAtMostOne(rows: Rows, readAt: Instant, wroteAt: Instant, now: Instant)
    requires Recorded(rows, readAt) && readAt.second >= 0.0 && wroteAt.second >= 0.0
    requires NotAfter(readAt, wroteAt) && NotAfter(wroteAt, now)
    ensures now.month != wroteAt.month ==> Count(WithHold(rows, wroteAt), MonthStart(now), HOSTED_LANE) == 0
    ensures Count(WithHold(rows, wroteAt), MonthStart(now), HOSTED_LANE)
         <= Count(rows, MonthStart(readAt), HOSTED_LANE) + 1
  {
    var before := Since(rows, MonthStart(readAt), HOSTED_LANE);
    var held := Since(WithHold(rows, wroteAt), MonthStart(now), HOSTED_LANE);
    if now.month == wroteAt.month {
      assert held <= before + {NextId(rows)};
      SubsetIsNoLarger(held, before + {NextId(rows)});
    } else {
      assert held == {};
    }
  }

  /** A hold stays under the ceiling of its own month, even when the month turns between read and write. */
  lemma AHoldStaysUnder(rows: Rows, ceiling: Ceiling, estimate: real, readAt: Instant, wroteAt: Instant)
    requires ceiling.perRun > 0.0 && Recorded(rows, readAt) && readAt.second >= 0.0 && wroteAt.second >= 0.0
    requires NotAfter(readAt, wroteAt)
    requires Admits(ceiling, SpentMinutes(rows, ceiling, readAt), estimate)
    ensures UnderCeiling(WithHold(rows, wroteAt), ceiling, wroteAt)
  {
    hide Count, WithHold, Minutes, Admits;
    var after := WithHold(rows, wroteAt);
    var read := Count(rows, MonthStart(readAt), HOSTED_LANE);
    AnAdmittedHoldHasRoom(ceiling, SpentMinutes(rows, ceiling, readAt), estimate);
    OneMoreDispatchCostsOneRun(read, ceiling);
    assert Minutes(read + 1, ceiling) < ceiling.minutes;
    forall now: Instant | NotAfter(wroteAt, now) && now.second >= 0.0
      ensures SpentMinutes(after, ceiling, now) < ceiling.minutes || Count(after, MonthStart(now), HOSTED_LANE) == 0
    {
      AHoldAddsAtMostOne(rows, readAt, wroteAt, now);
      FewerDispatchesCostNoMore(Count(after, MonthStart(now), HOSTED_LANE), read + 1, ceiling);
    }
  }

  lemma StepStaysUnder(rows: Rows, ceiling: Ceiling, clock: Instant, e: Event)
    requires ceiling.perRun > 0.0 && UnderCeiling(rows, ceiling, clock) && Recorded(rows, clock)
    requires NotAfter(clock, Start(e)) && NotAfter(Start(e), End(e)) && Start(e).second >= 0.0 && End(e).second >= 0.0
    ensures UnderCeiling(Next(rows, ceiling, e), ceiling, End(e)) && Recorded(Next(rows, ceiling, e), End(e))
  {
    hide UnderCeiling, SpentMinutes, Admits;
    if e.Reserve? && Admits(ceiling, SpentMinutes(rows, ceiling, e.readAt), e.estimate) {
      AHoldStaysUnder(rows, ceiling, e.estimate, e.readAt, e.wroteAt);
    } else {
      QuietStepStaysUnder(rows, Next(rows, ceiling, e), ceiling, clock, End(e));
    }
  }

  /**
   * With a clock that never runs back, over any order of holds, releases and attributions and
   * across any number of month resets, the counted minutes of the month stay below the ceiling
   * or nothing is counted at all.
   */
  lemma {:induction false} TheCeilingHolds(rows: Rows, ceiling: Ceiling, clock: Instant, events: seq<Event>)
    requires ceiling.perRun > 0.0 && UnderCeiling(rows, ceiling, clock) && Recorded(rows, clock)
    requires Forward(clock, events)
    requires forall i | 0 <= i < |events| :: Start(events[i]).second >= 0.0 && End(events[i]).second >= 0.0
    ensures UnderCeiling(Run(rows, ceiling, events), ceiling, Clock(clock, events))
    decreases |events|
  {
    if events != [] {
      hide UnderCeiling, Next, Recorded, NotAfter, Start, End;
      var rest := events[1..];
      StepStaysUnder(rows, ceiling, clock, events[0]);
      assert forall i | 0 <= i < |rest| :: rest[i] == events[i + 1];
      TheCeilingHolds(Next(rows, ceiling, events[0]), ceiling, End(events[0]), rest);
    }
  }

  lemma AnEmptyLedgerIsUnderAnyCeiling(ceiling: Ceiling, clock: Instant)
    ensures UnderCeiling(map[], ceiling, clock) && Recorded(map[], clock)
  {
    forall now: Instant ensures Count(map[], MonthStart(now), HOSTED_LANE) == 0 {
      assert Since(map[], MonthStart(now), HOSTED_LANE) == {};
    }
  }

  /** Giving a fresh hold straight back leaves the ledger exactly as it was found. */
  lemma AHoldGivenBackLeavesNoTrace(rows: Rows, ceiling: Option<Ceiling>, estimate: real, readAt: Instant,
                                    wroteAt: Instant)
    ensures
      var (after, hold) := Reserved(rows, ceiling, estimate, readAt, wroteAt);
      && (hold.Held? ==> hold.id !in rows && hold.id in after && Released(after, Some(hold.id)) == rows)
      && (!hold.Held? ==> after == rows)
  {
    assert WithHold(rows, wroteAt) - {NextId(rows)} == rows;
  }

  /**
   * What a hold number is worth once released: the next hold is numbered above it exactly when a
   * higher number is still held, and takes that very number exactly when none is and the number
   * just below is held, or the number is the first.
   */
  lemma ANumberIsReusedExactlyWhenItWasTheLast(rows: Rows, id: nat)
    requires id in rows && id > 0
    ensures NextId(Released(rows, Some(id))) > id <==> exists higher :: higher in rows && higher > id
    ensures NextId(Released(rows, Some(id))) == id <==> IsReused(rows, id)
  {
    var rest := Released(rows, Some(id));
    if higher :| higher in rows && higher > id {
      assert higher in rest;
    } else {
      assert rest != map[] ==> NextId(rest) - 1 in rest;
      assert id - 1 in rows ==> id - 1 in rest;
      assert forall other | other in rows && other != id :: other in rest;
    }
  }

  /** No other row is above this one, and the one just below is held unless this is the first. */
  predicate IsReused(rows: Rows, id: nat) {
    && (forall other | other in rows :: other <= id)
    && (id == 1 || (id > 1 && id - 1 in rows))
  }

  /**
   * A hold released, another dispatch's hold taken, and the first released again: the second
   * release frees the other's hold if and only if the first number was reused for it. Then the
   * month counts nothing for a dispatch that goes ahead; otherwise the second release does nothing.
   */
  lemma ASecondReleaseFreesAnotherHoldExactlyWhen(rows: Rows, id: nat, ceiling: Ceiling, estimate: real,
                                                  readAt: Instant, wroteAt: Instant)
    requires id in rows && id > 0
    requires Admits(ceiling, SpentMinutes(Released(rows, Some(id)), ceiling, readAt), estimate)
    ensures
      var once := Released(rows, Some(id));
      var (held, theirs) := Reserved(once, Some(ceiling), estimate, readAt, wroteAt);
      && theirs.Held?
      && Run(rows, ceiling, [Release(Some(id), readAt), Reserve(estimate, readAt, wroteAt), Release(Some(id), wroteAt)])
         == Released(held, Some(id))
      && (theirs.id !in Released(held, Some(id)) <==> IsReused(rows, id))
      && Released(held, Some(id)) == (if IsReused(rows, id) then once else held)
  {
    ANumberIsReusedExactlyWhenItWasTheLast(rows, id);
    var once := Released(rows, Some(id));
    var (held, theirs) := Reserved(once, Some(ceiling), estimate, readAt, wroteAt);
    var events := [Release(Some(id), readAt), Reserve(estimate, readAt, wroteAt), Release(Some(id), wroteAt)];
    RunOfThree(rows, ceiling, events[0], events[1], events[2]);
    assert held == WithHold(once, wroteAt) && theirs == Held(NextId(once));
    hide NextId, Admits, SpentMinutes;
    assert id !in once;
    if NextId(once) == id {
      assert WithHold(once, wroteAt) - {id} == once;
    } else {
      assert held - {id} == held;
    }
  }

  lemma RunOfThree(rows: Rows, ceiling: Ceiling, first: Event, second: Event, third: Event)
    ensures Run(rows, ceiling, [first, second, third])
         == Next(Next(Next(rows, ceiling, first), ceiling, second), ceiling, third)
  {
    hide Next;
    var events := [first, second, third];
    assert events[1..] == [second, third] && [second, third][1..] == [third] && [third][1..] == [];
    var one := Next(rows, ceiling, first);
    var two := Next(one, ceiling, second);
    assert Run(rows, ceiling, events) == Run(one, ceiling, [second, third]) == Run(two, ceiling, [third]);
    assert Run(two, ceiling, [third]) == Run(Next(two, ceiling, third), ceiling, []);
  }

  // ---- a second release, whatever happened in between ----

  lemma {:induction false} RunInTwo(rows: Rows, ceiling: Ceiling, first: seq<Event>, second: seq<Event>)
    ensures Run(rows, ceiling, first + second) == Run(Run(rows, ceiling, first), ceiling, second)
    decreases |first|
  {
    hide Next;
    if first == [] {
      assert first + second == second;
    } else {
      assert (first + second)[0] == first[0] && (first + second)[1..] == first[1..] + second;
      RunInTwo(Next(rows, ceiling, first[0]), ceiling, first[1..], second);
    }
  }

  lemma RunOfOne(rows: Rows, ceiling: Ceiling, e: Event)
    ensures Run(rows, ceiling, [e]) == Next(rows, ceiling, e)
  {
    hide Next;
    assert Run(rows, ceiling, [e]) == Run(Next(rows, ceiling, e), ceiling, []);
  }

  /** Whether the number was handed to some hold that no release of it followed. */
  ghost predicate GivenOut(rows: Rows, ceiling: Ceiling, events: seq<Event>, id: nat)
    decreases |events|
  {
    events != [] &&
    var n := |events| - 1;
    var before := Run(rows, ceiling, events[..n]);
    match events[n]
    case Reserve(estimate, readAt, wroteAt) =>
      Reserved(before, Some(ceiling), estimate, readAt, wroteAt).1 == Held(id)
      || GivenOut(rows, ceiling, events[..n], id)
    case Release(released, _) => released != Some(id) && GivenOut(rows, ceiling, events[..n], id)
    case Attribute(_, _, _, _, _) => GivenOut(rows, ceiling, events[..n], id)
  }

  lemma {:induction false} HeldExactlyWhenGivenOut(rows: Rows, ceiling: Ceiling, events: seq<Event>, id: nat)
    requires id !in rows
    ensures id in Run(rows, ceiling, events) <==> GivenOut(rows, ceiling, events, id)
    decreases |events|
  {
    if events != [] {
      var n := |events| - 1;
      HeldExactlyWhenGivenOut(rows, ceiling, events[..n], id);
      assert events == events[..n] + [events[n]];
      RunInTwo(rows, ceiling, events[..n], [events[n]]);
      RunOfOne(Run(rows, ceiling, events[..n]), ceiling, events[n]);
      hide Run, NextId, Admits, SpentMinutes;
    }
  }

  /**
   * A hold released twice, with any holds, releases and attributions in between: the second release
   * removes a row if and only if its number was given out again meanwhile and not released since.
   */
  lemma ASecondReleaseRemovesExactlyAReusedHold(rows: Rows, id: nat, ceiling: Ceiling, between: seq<Event>, at: Instant,
                                                again: Instant)
    ensures
      var once := Released(rows, Some(id));
      var meanwhile := Run(once, ceiling, between);
      && Run(rows, ceiling, [Release(Some(id), at)] + between + [Release(Some(id), again)])
         == Released(meanwhile, Some(id))
      && (Released(meanwhile, Some(id)) != meanwhile <==> GivenOut(once, ceiling, between, id))
  {
    var once := Released(rows, Some(id));
    var meanwhile := Run(once, ceiling, between);
    var first, last := [Release(Some(id), at)], [Release(Some(id), again)];
    RunInTwo(rows, ceiling, first + between, last);
    RunInTwo(rows, ceiling, first, between);
    RunOfOne(rows, ceiling, first[0]);
    RunOfOne(meanwhile, ceiling, last[0]);
    HeldExactlyWhenGivenOut(once, ceiling, between, id);
    hide Run, GivenOut;
    if id in meanwhile {
      assert id !in Released(meanwhile, Some(id));
    } else {
      assert meanwhile - {id} == meanwhile;
    }
  }

  /** While a higher number stays held, the number is not given out. */
  lemma {:induction false} AHigherHoldKeepsTheNumber(rows: Rows, ceiling: Ceiling, events: seq<Event>, id: nat,
                                                     higher: nat)
    requires id !in rows && higher in rows && higher > id
    requires forall k | 0 <= k < |events| && events[k].Release? :: events[k].id != Some(higher)
    ensures higher in Run(rows, ceiling, events) && !GivenOut(rows, ceiling, events, id)
    decreases |events|
  {
    if events != [] {
      var n := |events| - 1;
      AHigherHoldKeepsTheNumber(rows, ceiling, events[..n], id, higher);
      assert events == events[..n] + [events[n]];
      RunInTwo(rows, ceiling, events[..n], [events[n]]);
      RunOfOne(Run(rows, ceiling, events[..n]), ceiling, events[n]);
      hide Run, Admits, SpentMinutes;
    }
  }

  /**
   * A hold that is the only row is reused, so on a ledger that held nothing else its second
   * release leaves the month counting none of the other's dispatch.
   */
  lemma ReleasingTwiceMayFreeAnotherHold(ceiling: Ceiling, at: Instant)
    requires 0.0 < ceiling.perRun < ceiling.minutes
    ensures
      var mine := Reserved(map[], Some(ceiling), 0.0, at, at);
      && mine.1 == Held(1)
      && Run(mine.0, ceiling, [Release(Some(1), at), Reserve(0.0, at, at), Release(Some(1), at)]) == map[]
  {
    assert Since(map[], MonthStart(at), HOSTED_LANE) == {};
    var mine := Reserved(map[], Some(ceiling), 0.0, at, at);
    assert mine.0 - {1} == map[];
    ASecondReleaseFreesAnotherHoldExactlyWhen(mine.0, 1, ceiling, 0.0, at, at);
  }

  /** The table behind `Rows`, numbered as `NextId` says. */
  class MeteredLedger {
    var rows: Rows

    constructor ()
      ensures rows == map[]
    {
      rows := map[];
    }

    /** `Reserved`, on the table; the two instants are the clock's two readings. */
    method ReserveMetered(ceiling: Option<Ceiling>, estimate: real, readAt: Instant, wroteAt: Instant)
      returns (hold: Hold)
      modifies this
      ensures (rows, hold) == Reserved(old(rows), ceiling, estimate, readAt, wroteAt)
    {
      if ceiling.None? {
        return NoCeiling;
      }
      var used := CountSince(MonthStart(readAt), HOSTED_LANE) as real * ceiling.value.perRun;
      var cost := Cost(ceiling.value, estimate);
      if used + cost >= ceiling.value.minutes {
        return OverBudget;
      }
      var id := Insert(Dispatch(REPOSITORY_UNKNOWN, HOSTED_LANE, "", "", wroteAt));
      return Held(id);
    }

    /** What the health report says, by its own comparison: what a reservation at that instant would get. */
    method ReportNextAdmitted(ceiling: Ceiling, now: Instant) returns (admitted: bool)
      ensures forall wroteAt :: admitted <==> Reserved(rows, Some(ceiling), 0.0, now, wroteAt).1.Held?
      ensures forall estimate, wroteAt | estimate <= ceiling.perRun ::
                Reserved(rows, Some(ceiling), estimate, now, wroteAt)
                == Reserved(rows, Some(ceiling), 0.0, now, wroteAt)
      ensures forall estimate, wroteAt | Reserved(rows, Some(ceiling), estimate, now, wroteAt).1.Held? :: admitted
    {
      var used := CountSince(MonthStart(now), HOSTED_LANE) as real * ceiling.perRun;
      var cost := if ceiling.perRun > 0.0 then ceiling.perRun else 0.0;
      return used + cost < ceiling.minutes;
    }

    method Insert(row: Dispatch) returns (id: nat)
      modifies this
      ensures id == NextId(old(rows)) && rows == old(rows)[id := row]
    {
      id := NextId(rows);
      rows := rows[id := row];
    }

    function CountSince(since: Instant, lane: string): nat
      reads this
    {
      Count(rows, since, lane)
    }

    method Release(id: Option<nat>)
      modifies this
      ensures rows == Released(old(rows), id)
    {
      if id.Some? {
        rows := rows - {id.value};
      }
    }

    method Attribute(id: Option<nat>, repository: string, workflow: string, ref: string)
      modifies this
      ensures rows == Attributed(old(rows), id, repository, workflow, ref)
    {
      if id.Some? && id.value in rows {
        rows := rows[id.value := rows[id.value].(repository := repository, workflow := workflow, ref := ref)];
      }
    }
  }
}
