/** How long a runner reservation stands, and what a decision makes of the runners it finds. */
module ReservationLives {
  import opened Prelude
  import opened Reservations

  // ---- what one decision says ----

  /** An idle runner with the labels. */
  ghost predicate Serves(runners: seq<Runner>, i: nat, required: Labels) {
    i < |runners| && runners[i].online && !runners[i].busy && required <= runners[i].labels
  }

  /** The idle runners with the labels. */
  ghost function Serving(runners: seq<Runner>, required: Labels): set<nat> {
    set i: nat | i < |runners| && Serves(runners, i, required)
  }

  /** The reservations that one of the runners could serve together with the request. */
  ghost function Claimed(runners: seq<Runner>, required: Labels, book: Book): set<nat> {
    set id | id in book.Keys && exists i: nat :: i < |runners| && Serves(runners, i, required + book[id].labels)
  }

  ghost predicate RoomFor(runners: seq<Runner>, required: Labels, book: Book) {
    |Claimed(runners, required, book)| < |Serving(runners, required)|
  }

  lemma RoomIsWhatIsAvailable(runners: seq<Runner>, required: Labels, book: Book)
    ensures RoomFor(runners, required, book) <==> Available(runners, required, book) > 0
    ensures Serving(runners, required) == Cover(runners, required)
    ensures Claimed(runners, required, book) == Overlapping(runners, required, book)
  {
    var serving, claimed := Serving(runners, required), Claimed(runners, required, book);
    assert serving == Cover(runners, required);
    forall id ensures id in claimed <==> id in Overlapping(runners, required, book) {
      if id in claimed {
        var i: nat :| i < |runners| && Serves(runners, i, required + book[id].labels);
        assert i in Idle(runners) && book[id].labels + required <= runners[i].labels;
      } else if id in Overlapping(runners, required, book) {
        var i :| i in Idle(runners) && book[id].labels + required <= runners[i].labels;
        assert Serves(runners, i, required + book[id].labels);
      }
    }
    assert claimed == Overlapping(runners, required, book);
  }

  /**
   * A hosted lane is always let through and reserves nothing. A local one is refused exactly when
   * there is no room and an idle runner with its labels, or waiting is not allowed; it takes a
   * reservation exactly when there is room and a candidate, and is told to wait when there is none.
   */
  lemma ALocalLaneIsAdmittedExactlyWhen(runners: seq<Runner>, required: Labels, candidate: Option<string>, book: Book,
                                        allowBusy: bool)
    ensures Admit(runners, Hosted(required), book, allowBusy).Admitted?
    ensures !Admit(runners, Hosted(required), book, allowBusy).reserves
    ensures
      var room := RoomFor(runners, required, book);
      var admission := Admit(runners, Local(required, candidate), book, allowBusy);
      && (admission.Admitted? <==> room || (allowBusy && forall i: nat :: !Serves(runners, i, required)))
      && (admission.Admitted? ==>
            && (admission.reserves <==> room && candidate.Some?)
            && (admission.snapshot.queuedByGithub <==> !room)
            && admission.snapshot.laneIdle == |Serving(runners, required)|
            && admission.snapshot.reserved == |Claimed(runners, required, book)|
            && admission.snapshot.available
               == if room then |Serving(runners, required)| - |Claimed(runners, required, book)| else 0)
  {
    RoomIsWhatIsAvailable(runners, required, book);
    if i: nat :| Serves(runners, i, required) {
      assert i in Cover(runners, required);
    } else {
      assert Cover(runners, required) == {};
    }
    hide Overlapping, Cover, Serving, Claimed;
  }

  // ---- how long a reservation stands ----

  /** Whether a decision reserves a runner under the id. */
  ghost predicate Grants(runners: seq<Runner>, book: Book, e: Event) {
    && e.Decide? && e.lane.Local? && e.lane.candidate.Some?
    && RoomFor(runners, e.lane.required,
               map id | id in book && book[id].expires > e.now :: book[id])
  }

  function RunnersOf(pools: map<string, seq<Runner>>, repository: string): seq<Runner> {
    if repository in pools then pools[repository] else []
  }

  /** Whether an event ends a reservation: its release, a grant under its id, or a decision at its time or later. */
  ghost predicate Ends(pools: map<string, seq<Runner>>, table: Table, e: Event, repository: string, id: nat)
    requires id in BookOf(table, repository)
  {
    && e.repository == repository
    && (|| (e.Release? && e.id == id)
        || (e.Decide? && BookOf(table, repository)[id].expires <= e.now)
        || (e.Decide? && e.id == id && Grants(RunnersOf(pools, repository), BookOf(table, repository), e)))
  }

  lemma UnexpiredIsWhatRemains(book: Book, now: real)
    ensures Unexpired(book, now) == map id | id in book && book[id].expires > now :: book[id]
  {
  }

  lemma ADecisionGrants(runners: seq<Runner>, book: Book, e: Event)
    requires e.Decide?
    ensures
      var left := map id | id in book && book[id].expires > e.now :: book[id];
      Decided(runners, book, e.lane, e.allowBusy, e.id, e.now, e.hold)
      == if Grants(runners, book, e) then left[e.id := Reservation(e.now + e.hold, e.lane.required)] else left
  {
    UnexpiredIsWhatRemains(book, e.now);
    var left := Unexpired(book, e.now);
    ALocalLaneIsAdmittedExactlyWhen(runners, e.lane.required, if e.lane.Local? then e.lane.candidate else None, left,
                                    e.allowBusy);
    assert e.lane.Hosted? ==> e.lane == Hosted(e.lane.required);
    assert e.lane.Local? ==> e.lane == Local(e.lane.required, e.lane.candidate);
    hide Admit, RoomFor;
  }

  /** One event leaves a reservation exactly as it was unless it ends it, and a release or an expiry removes it. */
  lemma AnEventEndsOrLeaves(pools: map<string, seq<Runner>>, table: Table, e: Event, repository: string, id: nat)
    requires id in BookOf(table, repository)
    ensures
      var before, after := BookOf(table, repository), BookOf(Next(pools, table, e), repository);
      if !Ends(pools, table, e, repository, id) then id in after && after[id] == before[id]
      else if e.Decide? && e.id == id && Grants(RunnersOf(pools, repository), before, e) then
        id in after && after[id] == Reservation(e.now + e.hold, e.lane.required)
      else id !in after
  {
    var before := BookOf(table, repository);
    if e.repository == repository {
      if e.Decide? { ADecisionGrants(RunnersOf(pools, repository), before, e); }
      hide Decided, Grants;
    }
  }

  ghost predicate Stands(pools: map<string, seq<Runner>>, table: Table, events: seq<Event>, repository: string, id: nat)
    requires id in BookOf(table, repository)
    decreases |events|
  {
    events == [] ||
    (&& !Ends(pools, table, events[0], repository, id)
     && id in BookOf(Next(pools, table, events[0]), repository)
     && Stands(pools, Next(pools, table, events[0]), events[1..], repository, id))
  }

  lemma {:induction false} AReservationStandsUntilItEnds(pools: map<string, seq<Runner>>, table: Table,
                                                         events: seq<Event>, repository: string, id: nat)
    requires id in BookOf(table, repository) && Stands(pools, table, events, repository, id)
    ensures
      var book := BookOf(Run(pools, table, events), repository);
      id in book && book[id] == BookOf(table, repository)[id]
    decreases |events|
  {
    if events != [] {
      AnEventEndsOrLeaves(pools, table, events[0], repository, id);
      hide Next, Ends, BookOf;
      AReservationStandsUntilItEnds(pools, Next(pools, table, events[0]), events[1..], repository, id);
    }
  }

  /** Events that are no release of the reservation and no later or renewed decision of its repository. */
  ghost predicate Quiet(events: seq<Event>, repository: string, id: nat, until: real) {
    forall i | 0 <= i < |events| && events[i].repository == repository ::
      events[i].id != id && (events[i].Decide? ==> events[i].now < until)
  }

  /**
   * A runner reserved at some time for some seconds stays reserved, whatever else happens, until that
   * reservation is released, another is granted under its id, or its repository decides again when
   * the seconds have passed.
   */
  lemma AGrantStandsForItsHold(pools: map<string, seq<Runner>>, table: Table, grant: Event, events: seq<Event>)
    requires grant.Decide?
    requires Grants(RunnersOf(pools, grant.repository), BookOf(table, grant.repository), grant)
    requires Quiet(events, grant.repository, grant.id, grant.now + grant.hold)
    ensures
      var book := BookOf(Run(pools, table, [grant] + events), grant.repository);
      grant.id in book && book[grant.id] == Reservation(grant.now + grant.hold, grant.lane.required)
  {
    var next := Next(pools, table, grant);
    ADecisionGrants(RunnersOf(pools, grant.repository), BookOf(table, grant.repository), grant);
    assert ([grant] + events)[1..] == events;
    hide Decided, Grants;
    assert BookOf(next, grant.repository)[grant.id] == Reservation(grant.now + grant.hold, grant.lane.required);
    QuietEventsLeaveItStanding(pools, next, events, grant.repository, grant.id);
    AReservationStandsUntilItEnds(pools, next, events, grant.repository, grant.id);
  }

  lemma {:induction false} QuietEventsLeaveItStanding(pools: map<string, seq<Runner>>, table: Table, events: seq<Event>,
                                                      repository: string, id: nat)
    requires id in BookOf(table, repository) && Quiet(events, repository, id, BookOf(table, repository)[id].expires)
    ensures Stands(pools, table, events, repository, id)
    decreases |events|
  {
    if events != [] {
      assert !Ends(pools, table, events[0], repository, id);
      AnEventEndsOrLeaves(pools, table, events[0], repository, id);
      hide Next, Ends, BookOf;
      QuietEventsLeaveItStanding(pools, Next(pools, table, events[0]), events[1..], repository, id);
    }
  }

  /**
   * While a reservation stands on the only idle runner that could serve it together with a request,
   * that request is refused and the reservation is left.
   */
  lemma TheOnlyRunnerIsNotGrantedTwice(pools: map<string, seq<Runner>>, table: Table, e: Event, id: nat, only: nat)
    requires e.Decide? && e.lane.Local? && id in BookOf(table, e.repository)
    requires var held := BookOf(table, e.repository)[id];
             var runners := RunnersOf(pools, e.repository);
             && e.now < held.expires && Serves(runners, only, e.lane.required + held.labels)
             && forall i: nat | Serves(runners, i, e.lane.required) :: i == only
    ensures
      var book := BookOf(table, e.repository);
      var left := map other | other in book && book[other].expires > e.now :: book[other];
      && Admit(RunnersOf(pools, e.repository), e.lane, left, e.allowBusy).Refused?
      && BookOf(Next(pools, table, e), e.repository) == left
      && id in BookOf(Next(pools, table, e), e.repository)
  {
    var runners, book := RunnersOf(pools, e.repository), BookOf(table, e.repository);
    var left := map other | other in book && book[other].expires > e.now :: book[other];
    var required := e.lane.required;
    var serving, claimed := Serving(runners, required), Claimed(runners, required, left);
    assert id in left.Keys && only < |runners| && Serves(runners, only, required + left[id].labels);
    assert id in claimed;
    assert serving == {only};
    SubsetIsNoLarger({id}, claimed);
    assert !RoomFor(runners, required, left);
    ALocalLaneIsAdmittedExactlyWhen(runners, required, e.lane.candidate, left, e.allowBusy);
    ADecisionGrants(runners, book, e);
    hide Admit, Decided, RoomFor;
  }
}
