/**
 * Runner reservations. A dispatch is admitted by comparing two counts over one repository's idle
 * runners; what the counts protect is a matching of every outstanding reservation to its own
 * idle runner.
 */
module Reservations {
  import opened Prelude

  type Labels = set<string>

  datatype Runner = Runner(name: string, online: bool, busy: bool, labels: Labels)

  datatype Reservation = Reservation(expires: real, labels: Labels)

  // One repository's outstanding reservations, by reservation id.
  type Book = map<nat, Reservation>

  // What the policy decided: a hosted run, or a local lane with its candidate runner, and the
  // labels it runs on.
  datatype Lane = Hosted(required: Labels) | Local(required: Labels, candidate: Option<string>)

  datatype Snapshot = Snapshot(laneIdle: nat, reserved: nat, available: nat, queuedByGithub: bool)

  datatype Admission = Refused | Admitted(snapshot: Snapshot, reserves: bool)

  // ---- the counts ----

  function Idle(runners: seq<Runner>): set<nat> {
    set i: nat | i < |runners| && runners[i].online && !runners[i].busy
  }

  /** The idle runners that carry every required label. */
  function Cover(runners: seq<Runner>, required: Labels): set<nat> {
    set i | i in Idle(runners) && required <= runners[i].labels
  }

  predicate Overlaps(runners: seq<Runner>, required: Labels, held: Labels) {
    exists i | i in Idle(runners) :: held + required <= runners[i].labels
  }

  /** The reservations that some idle runner could serve together with the required labels. */
  function Overlapping(runners: seq<Runner>, required: Labels, book: Book): set<nat> {
    set id | id in book && Overlaps(runners, required, book[id].labels)
  }

  function Available(runners: seq<Runner>, required: Labels, book: Book): int {
    |Cover(runners, required)| - |Overlapping(runners, required, book)|
  }

  /** The decision under the capacity lock. */
  function Admit(runners: seq<Runner>, lane: Lane, book: Book, allowBusy: bool): Admission {
    var laneIdle := |Cover(runners, lane.required)|;
    var reserved := |Overlapping(runners, lane.required, book)|;
    var available := laneIdle - reserved;
    if lane.Local? && available <= 0 && (!allowBusy || laneIdle > 0) then Refused
    else
      Admitted(
        Snapshot(laneIdle, reserved, if available > 0 then available else 0, lane.Local? && available <= 0),
        lane.Local? && lane.candidate.Some? && available > 0)
  }

  function Unexpired(book: Book, now: real): Book {
    map id | id in book && book[id].expires > now :: book[id]
  }

  // ---- the matching ----

  /** Every reservation has an idle runner of its own that carries its labels. */
  ghost predicate Matches(runners: seq<Runner>, book: Book, seat: map<nat, nat>) {
    && seat.Keys == book.Keys
    && (forall id | id in book ::
          && seat[id] < |runners| && runners[seat[id]].online && !runners[seat[id]].busy
          && book[id].labels <= runners[seat[id]].labels)
    && (forall a, b | a in book && b in book && seat[a] == seat[b] :: a == b)
  }

  ghost predicate Matchable(runners: seq<Runner>, book: Book) {
    exists seat :: Matches(runners, book, seat)
  }

  ghost function SeatsOf(ids: set<nat>, seat: map<nat, nat>): set<nat>
    requires ids <= seat.Keys
  {
    set id | id in ids :: seat[id]
  }

  /** Distinct reservations sit on distinct runners. */
  lemma {:induction false} SeatsAreCounted(ids: set<nat>, seat: map<nat, nat>)
    requires ids <= seat.Keys
    requires forall a, b | a in ids && b in ids && seat[a] == seat[b] :: a == b
    ensures |SeatsOf(ids, seat)| == |ids|
    decreases ids
  {
    if |ids| == 0 {
      assert SeatsOf(ids, seat) == {};
    } else {
      var id :| id in ids;
      SeatsAreCounted(ids - {id}, seat);
      assert SeatsOf(ids, seat) == SeatsOf(ids - {id}, seat) + {seat[id]};
    }
  }

  /** When the counts leave room, a runner covering the request is still free in any matching. */
  lemma RoomMeansAFreeRunner(runners: seq<Runner>, required: Labels, book: Book, seat: map<nat, nat>)
    returns (free: nat)
    requires Matches(runners, book, seat) && Available(runners, required, book) > 0
    ensures free in Cover(runners, required) && forall id | id in book :: seat[id] != free
  {
    var cover := Cover(runners, required);
    var inside := set id | id in book && seat[id] in cover;
    forall id | id in inside ensures id in Overlapping(runners, required, book) {
      assert book[id].labels + required <= runners[seat[id]].labels;
    }
    SeatsAreCounted(inside, seat);
    SubsetIsNoLarger(inside, Overlapping(runners, required, book));
    if forall i | i in cover :: i in SeatsOf(inside, seat) {
      SubsetIsNoLarger(cover, SeatsOf(inside, seat));
      assert false;
    }
    free :| free in cover && free !in SeatsOf(inside, seat);
    assert forall id | id in book :: seat[id] in cover ==> seat[id] in SeatsOf(inside, seat);
  }

  lemma ACoveringRunnerServes(runners: seq<Runner>, required: Labels, i: nat)
    ensures i in Cover(runners, required) <==>
              i < |runners| && runners[i].online && !runners[i].busy && required <= runners[i].labels
  {
  }

  /** Comparing the two counts keeps every reservation seated, whatever id the grant takes. */
  lemma AGrantKeepsTheMatching(runners: seq<Runner>, book: Book, id: nat, grant: Reservation)
    requires Matchable(runners, book) && Available(runners, grant.labels, book) > 0
    ensures Matchable(runners, book[id := grant])
  {
    var seat :| Matches(runners, book, seat);
    var free := RoomMeansAFreeRunner(runners, grant.labels, book, seat);
    ACoveringRunnerServes(runners, grant.labels, free);
    hide Cover, Available;
    assert Matches(runners, book[id := grant], seat[id := free]);
  }

  lemma FewerReservationsStaySeated(runners: seq<Runner>, book: Book, rest: Book)
    requires Matchable(runners, book)
    requires rest.Keys <= book.Keys && forall id | id in rest :: rest[id] == book[id]
    ensures Matchable(runners, rest)
  {
    hide Cover;
    var seat :| Matches(runners, book, seat);
    var fewer := map id | id in rest :: seat[id];
    assert forall id | id in fewer :: fewer[id] == seat[id] && id in book;
    assert Matches(runners, rest, fewer);
  }

  /** One more seat for the request leaves a runner beyond those its overlapping claimants hold. */
  lemma ASeatMeansRoom(runners: seq<Runner>, book: Book, id: nat, grant: Reservation, seat: map<nat, nat>)
    requires id !in book && Matches(runners, book[id := grant], seat)
    requires forall other | other in Overlapping(runners, grant.labels, book) :: grant.labels <= book[other].labels
    ensures Available(runners, grant.labels, book) > 0
  {
    var more := book[id := grant];
    var overlapping := Overlapping(runners, grant.labels, book);
    var claimants := overlapping + {id};
    forall seated | seated in SeatsOf(claimants, seat) ensures seated in Cover(runners, grant.labels) {
      var other :| other in claimants && seat[other] == seated;
      assert seated in Cover(runners, more[other].labels);
      assert grant.labels <= more[other].labels;
    }
    SeatsAreCounted(claimants, seat);
    SubsetIsNoLarger(SeatsOf(claimants, seat), Cover(runners, grant.labels));
  }

  /**
   * Where every reservation that overlaps the request asks for at least its labels, the counts
   * are exact: a grant is made exactly when one more reservation can still be seated.
   */
  lemma CountsAreExactForNestedLabels(runners: seq<Runner>, book: Book, id: nat, grant: Reservation)
    requires Matchable(runners, book) && id !in book
    requires forall other | other in Overlapping(runners, grant.labels, book) :: grant.labels <= book[other].labels
    ensures Available(runners, grant.labels, book) > 0 <==> Matchable(runners, book[id := grant])
  {
    hide Available, Matches, Overlapping;
    if Available(runners, grant.labels, book) > 0 {
      AGrantKeepsTheMatching(runners, book, id, grant);
    } else if Matchable(runners, book[id := grant]) {
      var seat :| Matches(runners, book[id := grant], seat);
      ASeatMeansRoom(runners, book, id, grant, seat);
    }
  }

  // A runner for each reservation, the seating that gives each its own, and who sits where.
  ghost predicate SeatsEach(runners: seq<Runner>, book: Book, seat: map<nat, nat>, sitter: seq<nat>) {
    && seat.Keys == book.Keys && |sitter| == |runners|
    && (forall id | id in book :: seat[id] < |runners| && sitter[seat[id]] == id)
    && (forall i | 0 <= i < |runners| ::
          sitter[i] in book && seat[sitter[i]] == i && runners[i] == Runner("", true, false, book[sitter[i]].labels))
  }

  lemma {:induction false} ARunnerForEach(book: Book)
    returns (runners: seq<Runner>, seat: map<nat, nat>, sitter: seq<nat>)
    ensures SeatsEach(runners, book, seat, sitter)
    decreases |book|
  {
    if book == map[] {
      return [], map[], [];
    }
    var id: nat :| id in book;
    var rest := book - {id};
    assert book.Keys == rest.Keys + {id};
    var some, seats, sitters := ARunnerForEach(rest);
    runners, seat := some + [Runner("", true, false, book[id].labels)], seats[id := |some|];
    sitter := sitters + [id];
  }

  /**
   * For any reservations one of which does not ask for all the request's labels, there are runners
   * on which everything held and the request can be seated together, and the counts refuse it.
   */
  lemma WithoutNestingARefusalIsCautious(book: Book, unlike: nat, id: nat, grant: Reservation)
    returns (runners: seq<Runner>)
    requires id !in book && unlike in book && !(grant.labels <= book[unlike].labels)
    ensures unlike in Overlapping(runners, grant.labels, book)
    ensures Matchable(runners, book) && Matchable(runners, book[id := grant])
    ensures Available(runners, grant.labels, book) <= 0
    ensures forall candidate :: Admit(runners, Local(grant.labels, candidate), book, false) == Refused
  {
    var some, seat, sitter := ARunnerForEach(book);
    var last := |some|;
    runners := some + [Runner("", true, false, book[unlike].labels + grant.labels)];
    forall i | 0 <= i < |runners| ensures i in Idle(runners) {
      if i < last { assert runners[i] == some[i]; }
    }
    var more := book[id := grant];
    assert forall other | other in book :: runners[seat[other]] == some[seat[other]];
    assert Matches(runners, book, seat);
    assert Matches(runners, more, seat[id := last]);
    CoverIsOneMoreThanTheNested(some, book, seat, sitter, unlike, grant.labels, runners);
  }

  lemma CoverIsOneMoreThanTheNested(some: seq<Runner>, book: Book, seat: map<nat, nat>, sitter: seq<nat>, unlike: nat,
                                    required: Labels, runners: seq<Runner>)
    requires SeatsEach(some, book, seat, sitter) && unlike in book && !(required <= book[unlike].labels)
    requires runners == some + [Runner("", true, false, book[unlike].labels + required)]
    ensures unlike in Overlapping(runners, required, book) && Available(runners, required, book) <= 0
  {
    var last := |some|;
    var nested := set other | other in book && required <= book[other].labels;
    assert forall i | 0 <= i < last :: runners[i] == some[i];
    assert runners[last].labels == book[unlike].labels + required && last in Idle(runners);
    forall i | i in Cover(runners, required) ensures i in SeatsOf(nested, seat) + {last} {
      if i < last { assert sitter[i] in nested; }
    }
    forall other | other in nested + {unlike} ensures other in Overlapping(runners, required, book) {
      if other == unlike {
        assert book[other].labels + required <= runners[last].labels;
      } else {
        assert book[other].labels + required <= runners[seat[other]].labels && seat[other] in Idle(runners);
      }
    }
    assert unlike !in nested;
    SeatsAreCounted(nested, seat);
    SubsetIsNoLarger(Cover(runners, required), SeatsOf(nested, seat) + {last});
    SubsetIsNoLarger(nested + {unlike}, Overlapping(runners, required, book));
  }

  /**
   * The counts decide exactly what can be seated on every list of runners if and only if every
   * reservation asks for at least the request's labels.
   */
  lemma CountsAreExactOnEveryRunnerListExactlyWhen(book: Book, id: nat, grant: Reservation)
    requires id !in book
    ensures
      (forall runners: seq<Runner> | Matchable(runners, book) ::
         Available(runners, grant.labels, book) > 0 <==> Matchable(runners, book[id := grant]))
      <==> (forall other | other in book :: grant.labels <= book[other].labels)
  {
    hide Matchable, Available, Admit, Overlaps;
    if forall other | other in book :: grant.labels <= book[other].labels {
      forall runners: seq<Runner> | Matchable(runners, book)
        ensures Available(runners, grant.labels, book) > 0 <==> Matchable(runners, book[id := grant])
      {
        CountsAreExactForNestedLabels(runners, book, id, grant);
      }
    } else {
      var unlike :| unlike in book && !(grant.labels <= book[unlike].labels);
      var runners := WithoutNestingARefusalIsCautious(book, unlike, id, grant);
    }
  }

  // ---- runs of the capacity table ----

  datatype Event =
    | Decide(repository: string, lane: Lane, allowBusy: bool, id: nat, now: real, hold: real)
    | Release(repository: string, id: nat)

  type Table = map<string, Book>

  function BookOf(table: Table, repository: string): Book {
    if repository in table then table[repository] else map[]
  }

  /** The table with one repository's book replaced; an empty book leaves no entry behind. */
  function WithBook(table: Table, repository: string, book: Book): Table {
    if book == map[] then table - {repository} else table[repository := book]
  }

  function Decided(runners: seq<Runner>, book: Book, lane: Lane, allowBusy: bool, id: nat, now: real, hold: real)
    : Book
  {
    var active := Unexpired(book, now);
    var admission := Admit(runners, lane, active, allowBusy);
    if admission.Admitted? && admission.reserves then active[id := Reservation(now + hold, lane.required)] else active
  }

  function Next(pools: map<string, seq<Runner>>, table: Table, e: Event): Table {
    var runners := if e.repository in pools then pools[e.repository] else [];
    var book := BookOf(table, e.repository);
    WithBook(table, e.repository,
             if e.Release? then book - {e.id}
             else Decided(runners, book, e.lane, e.allowBusy, e.id, e.now, e.hold))
  }

  function Run(pools: map<string, seq<Runner>>, table: Table, events: seq<Event>): Table
    decreases |events|
  {
    if events == [] then table else Run(pools, Next(pools, table, events[0]), events[1..])
  }

  ghost predicate Seated(pools: map<string, seq<Runner>>, table: Table) {
    forall repository | repository in table ::
      && table[repository] != map[]
      && Matchable(if repository in pools then pools[repository] else [], table[repository])
  }

  lemma ADecisionKeepsSeats(runners: seq<Runner>, book: Book, lane: Lane, allowBusy: bool, id: nat, now: real,
                            hold: real)
    requires Matchable(runners, book)
    ensures Matchable(runners, Decided(runners, book, lane, allowBusy, id, now, hold))
  {
    hide Matchable;
    var active := Unexpired(book, now);
    FewerReservationsStaySeated(runners, book, active);
    var admission := Admit(runners, lane, active, allowBusy);
    if admission.Admitted? && admission.reserves {
      AGrantKeepsTheMatching(runners, active, id, Reservation(now + hold, lane.required));
    }
  }

  lemma StepKeepsSeats(pools: map<string, seq<Runner>>, table: Table, e: Event)
    requires Seated(pools, table)
    ensures Seated(pools, Next(pools, table, e))
  {
    hide Matchable, Decided;
    var runners := if e.repository in pools then pools[e.repository] else [];
    var book := BookOf(table, e.repository);
    if book == map[] {
      NothingIsSeated(runners);
    }
    if e.Release? {
      FewerReservationsStaySeated(runners, book, book - {e.id});
    } else {
      ADecisionKeepsSeats(runners, book, e.lane, e.allowBusy, e.id, e.now, e.hold);
    }
  }

  lemma NothingIsSeated(runners: seq<Runner>)
    ensures Matchable(runners, map[])
  {
    assert Matches(runners, map[], map[]);
  }

  /**
   * While the runner lists stay as they are, after any order of decisions, expiries and releases
   * every outstanding reservation has an idle runner of its own that can take it.
   */
  lemma {:induction false} EveryReservationHasARunner(pools: map<string, seq<Runner>>, table: Table, events: seq<Event>)
    requires Seated(pools, table)
    ensures Seated(pools, Run(pools, table, events))
    decreases |events|
  {
    if events != [] {
      StepKeepsSeats(pools, table, events[0]);
      EveryReservationHasARunner(pools, Next(pools, table, events[0]), events[1..]);
    }
  }

  /** The broker's dictionary of reservations, by repository. */
  class Capacity {
    var reservations: Table

    constructor ()
      ensures reservations == map[]
    {
      reservations := map[];
    }

    method DispatchDecision(repository: string, runners: seq<Runner>, lane: Lane, allowBusy: bool,
                            id: nat, now: real, hold: real)
      returns (admission: Admission, reservation: Option<nat>)
      modifies this
      ensures reservations == Next(map[repository := runners], old(reservations),
                                   Decide(repository, lane, allowBusy, id, now, hold))
      ensures admission == Admit(runners, lane, Unexpired(BookOf(old(reservations), repository), now), allowBusy)
      ensures reservation == if admission.Admitted? && admission.reserves then Some(id) else None
    {
      ExpireReservations(repository, now);
      var book := if repository in reservations then reservations[repository] else map[];
      var laneIdle := |Cover(runners, lane.required)|;
      var reserved := |Overlapping(runners, lane.required, book)|;
      var available := laneIdle - reserved;
      reservation := None;
      if lane.Local? && available <= 0 && (!allowBusy || laneIdle > 0) {
        return Refused, None;
      }
      var snapshot := Snapshot(laneIdle, reserved, if available > 0 then available else 0,
                               lane.Local? && available <= 0);
      if lane.Local? && lane.candidate.Some? && available > 0 {
        reservation := Some(id);
        reservations := reservations[repository := book[id := Reservation(now + hold, lane.required)]];
        assert id in reservations[repository];
      }
      admission := Admitted(snapshot, reservation.Some?);
    }

    method ExpireReservations(repository: string, now: real)
      modifies this
      ensures reservations
           == WithBook(old(reservations), repository, Unexpired(BookOf(old(reservations), repository), now))
      ensures BookOf(reservations, repository) == Unexpired(BookOf(old(reservations), repository), now)
      ensures forall id :: id in BookOf(reservations, repository) <==>
                id in BookOf(old(reservations), repository)
                && now < BookOf(old(reservations), repository)[id].expires
      ensures forall id | id in BookOf(reservations, repository) ::
                BookOf(reservations, repository)[id] == BookOf(old(reservations), repository)[id]
      ensures forall other | other != repository :: BookOf(reservations, other) == BookOf(old(reservations), other)
    {
      var book := if repository in reservations then reservations[repository] else map[];
      var active := map id | id in book && book[id].expires > now :: book[id];
      if active != map[] {
        reservations := reservations[repository := active];
      } else {
        reservations := reservations - {repository};
      }
    }

    method ReleaseReservation(reservation: Option<(string, nat)>)
      modifies this
      ensures reservation.None? ==> reservations == old(reservations)
      ensures reservation.Some? ==> forall pools ::
                reservations == Next(pools, old(reservations), Release(reservation.value.0, reservation.value.1))
    {
      if reservation.None? {
        return;
      }
      var (repository, id) := reservation.value;
      var book := if repository in reservations then reservations[repository] else map[];
      book := book - {id};
      if book == map[] {
        reservations := reservations - {repository};
      } else {
        reservations := reservations[repository := book];
      }
    }
  }
}
