/** What the metered ledger counts for a month, what its ceiling compares, and what its rows say. */
module MeteredMonths {
  import opened Prelude
  import opened Metering

  /** The hosted dispatches of a month. */
  ghost function DispatchedIn(rows: Rows, month: nat): set<nat> {
    set id | id in rows.Keys && rows[id].lane == "hosted" && rows[id].createdAt.month == month
  }

  /** Where no row is from the future, the minutes spent are the month's hosted dispatches at the price of each. */
  lemma SpentIsTheMonthsDispatches(rows: Rows, ceiling: Ceiling, now: Instant)
    requires forall id | id in rows :: rows[id].createdAt.second >= 0.0 && rows[id].createdAt.month <= now.month
    ensures SpentMinutes(rows, ceiling, now) == |DispatchedIn(rows, now.month)| as real * ceiling.perRun
  {
    assert Since(rows, MonthStart(now), HOSTED_LANE) == DispatchedIn(rows, now.month);
  }

  /** One more dispatch is admitted when the month is not full and has room for its estimate and the assumed price. */
  lemma TheCeilingAdmitsExactlyWhen(ceiling: Ceiling, used: real, estimate: real)
    ensures Admits(ceiling, used, estimate) <==>
            used < ceiling.minutes && used + estimate < ceiling.minutes && used + ceiling.perRun < ceiling.minutes
  {
  }

  /** A reservation under a ceiling with room adds one unnamed hosted dispatch of the instant it was written. */
  lemma AReservationIsOneUnnamedDispatch(rows: Rows, ceiling: Ceiling, estimate: real, readAt: Instant,
                                         wroteAt: Instant)
    requires forall id | id in rows :: rows[id].createdAt.second >= 0.0 && rows[id].createdAt.month <= readAt.month
    ensures
      var (after, hold) := Reserved(rows, Some(ceiling), estimate, readAt, wroteAt);
      var used := |DispatchedIn(rows, readAt.month)| as real * ceiling.perRun;
      && (hold.Held? <==>
            used < ceiling.minutes && used + estimate < ceiling.minutes && used + ceiling.perRun < ceiling.minutes)
      && (hold.Held? ==>
            && hold.id !in rows && after.Keys == rows.Keys + {hold.id}
            && (forall id | id in rows :: after[id] == rows[id])
            && after[hold.id] == Dispatch("-", "hosted", "", "", wroteAt))
      && (!hold.Held? ==> hold == OverBudget && after == rows)
  {
    SpentIsTheMonthsDispatches(rows, ceiling, readAt);
    TheCeilingAdmitsExactlyWhen(ceiling, SpentMinutes(rows, ceiling, readAt), estimate);
    hide SpentMinutes, Admits, NextId;
  }

  /** Attributing a hold names its repository, workflow and ref, and leaves its lane, its time and every other row. */
  lemma AnAttributionNamesItsRowAlone(rows: Rows, id: nat, repository: string, workflow: string, ref: string)
    ensures
      var after := Attributed(rows, Some(id), repository, workflow, ref);
      && after.Keys == rows.Keys
      && (forall other | other in rows && other != id :: after[other] == rows[other])
      && (id in rows ==> after[id] == Dispatch(repository, rows[id].lane, workflow, ref, rows[id].createdAt))
    ensures Attributed(rows, None, repository, workflow, ref) == rows
  {
  }

  /** Instants are ordered by their month and then by the seconds into it. */
  lemma InstantsAreOrdered(a: Instant, b: Instant)
    ensures NotAfter(a, b) && NotAfter(b, a) <==> a == b
    ensures !NotAfter(b, a) <==> a.month < b.month || (a.month == b.month && a.second < b.second)
  {
  }
}
