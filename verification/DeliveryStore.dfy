/** The inbox of signed deliveries as the broker drives it, and the replay pass over it. */
module DeliveryStore {
  import opened Prelude
  import opened Deliveries
  import Metering

  type Key = (string, string)

  datatype Delivery = Delivery(
    fingerprint: string,
    workflow: string,
    ref: string,
    lane: string,
    sha: string,
    createdAt: real,
    state: State
  )

  // What dispatching a record came to: a result of this attempt, or that another attempt owned it.
  datatype Dispatched = Duplicate | Result(state: State)

  // What GitHub says of a workflow file; nothing when the lookup fails.
  datatype Adapter = There | Missing | Unknown

  // What the world answers when a delivery is replayed: whether the policy still permits it,
  // whether its workflow file is there, how GitHub takes the
  // dispatch, whether the result can be written, and whether a device may take a refused one.
  datatype Replay = Replay(permitted: bool, adapter: Adapter, answer: Answer, recorded: bool, device: bool)

  /** What one dispatch leaves in the ledger: a definite refusal gives the hold back. */
  function Spend(rows: Metering.Rows, hold: Option<nat>, record: Delivery, repository: string, answer: Answer)
    : Metering.Rows
  {
    if answer.Started? then Metering.Attributed(rows, hold, repository, record.workflow, record.ref)
    else if MayRun(answer) then rows
    else Metering.Released(rows, hold)
  }

  // How a push is answered once its delivery is registered: the number belongs to another payload,
  // another attempt settled it, a device took it, or this is what became of the dispatch.
  datatype PushAnswer = Conflict | Repeated | HandedOver | Answered(state: State)

  // What one replay leaves of its delivery and of the ledger, and whether a device was given it.
  datatype ReplayEnd = ReplayEnd(state: State, ledger: Metering.Rows, handed: bool)

  predicate IsMetered(d: Delivery) {
    d.lane == Metering.HOSTED_LANE
  }

  /** One waiting delivery, replayed. A dispatch the ceiling refuses stays ready for the next pass. */
  function Replayed(repository: string, d: Delivery, world: Replay, ledger: Metering.Rows,
                    ceiling: Option<Metering.Ceiling>, now: Metering.Instant): ReplayEnd
  {
    if !world.permitted || world.adapter.Missing? then ReplayEnd(Rejected, ledger, world.device)
    else if world.adapter.Unknown? then ReplayEnd(Ready, ledger, false)
    else
      var (held, hold) :=
        if IsMetered(d) then Metering.Reserved(ledger, ceiling, 0.0, now, now) else (ledger, Metering.NoCeiling);
      if hold.OverBudget? then ReplayEnd(Ready, held, false)
      else
        ReplayEnd(if world.recorded then Outcome(world.answer) else Attempting,
                  Spend(held, if hold.Held? then Some(hold.id) else None, d, repository, world.answer),
                  world.device && world.recorded && !MayRun(world.answer))
  }

  /** Whether the ceiling has no room for a metered replay. */
  predicate OverCeiling(d: Delivery, ledger: Metering.Rows, ceiling: Option<Metering.Ceiling>, now: Metering.Instant) {
    && IsMetered(d) && ceiling.Some?
    && !Metering.Admits(ceiling.value, Metering.SpentMinutes(ledger, ceiling.value, now), 0.0)
  }

  /** Whether a replay is sent, is metered under a ceiling with room, and may have started a run. */
  predicate Charged(d: Delivery, world: Replay, ledger: Metering.Rows, ceiling: Option<Metering.Ceiling>,
                    now: Metering.Instant)
  {
    && world.permitted && world.adapter.There?
    && IsMetered(d) && ceiling.Some? && !OverCeiling(d, ledger, ceiling, now)
    && MayRun(world.answer)
  }

  /**
   * A replay the policy and the workflow file allow waits exactly when the ceiling has no room. It
   * charges the ledger one new row exactly when it was sent, is metered under a ceiling, and may
   * have started a run; otherwise the ledger is as it was. A device is given only a delivery that
   * is refused and has no run.
   */
  lemma AReplayChargesExactlyWhatMayRun(repository: string, d: Delivery, world: Replay, ledger: Metering.Rows,
                                        ceiling: Option<Metering.Ceiling>, now: Metering.Instant)
    ensures
      var end := Replayed(repository, d, world, ledger, ceiling, now);
      var allowed := world.permitted && world.adapter.There?;
      var charged := Charged(d, world, ledger, ceiling, now);
      && (allowed ==> (end.state == Ready <==> OverCeiling(d, ledger, ceiling, now)))
      && (!charged ==> end.ledger == ledger)
      && (charged ==>
            && end.ledger.Keys == ledger.Keys + {Metering.NextId(ledger)} && Metering.NextId(ledger) !in ledger
            && forall id | id in ledger :: end.ledger[id] == ledger[id])
      && (end.handed ==> end.state == Rejected && end.ledger == ledger)
  {
    if IsMetered(d) {
      Metering.AHoldGivenBackLeavesNoTrace(ledger, ceiling, 0.0, now, now);
      var (held, hold) := Metering.Reserved(ledger, ceiling, 0.0, now, now);
      assert hold.OverBudget? <==> OverCeiling(d, ledger, ceiling, now);
      assert hold.NoCeiling? <==> ceiling.None?;
      assert hold.Held? ==> held == Metering.WithHold(ledger, now) && hold.id == Metering.NextId(ledger);
      assert hold.Held? ==> Metering.Released(held, Some(hold.id)) == ledger;
      hide Metering.Reserved, Metering.SpentMinutes, Metering.Admits, OverCeiling;
    }
  }

  // What a pass over some deliveries leaves: their rows, the ledger, and those a device was given.
  datatype PassEnd = PassEnd(rows: map<Key, Delivery>, ledger: Metering.Rows, handed: set<Key>)

  /** A replay pass, one delivery after another, each against the ledger the one before left. */
  function ReplayedAll(batch: seq<Key>, rows: map<Key, Delivery>, world: Key -> Replay, ledger: Metering.Rows,
                       ceiling: Option<Metering.Ceiling>, now: Metering.Instant): (end: PassEnd)
    requires forall key | key in batch :: key in rows
    ensures end.rows.Keys == rows.Keys
  {
    if batch == [] then PassEnd(rows, ledger, {})
    else
      var n := |batch| - 1;
      var before := ReplayedAll(batch[..n], rows, world, ledger, ceiling, now);
      var key := batch[n];
      var end := Replayed(key.0, before.rows[key], world(key), before.ledger, ceiling, now);
      PassEnd(before.rows[key := before.rows[key].(state := end.state)], end.ledger,
              if end.handed then before.handed + {key} else before.handed)
  }

  ghost predicate Distinct(batch: seq<Key>) {
    forall i, j | 0 <= i < j < |batch| :: batch[i] != batch[j]
  }

  /** How many deliveries of a pass are charged, each judged against the ledger the one before left. */
  function Charges(batch: seq<Key>, rows: map<Key, Delivery>, world: Key -> Replay, ledger: Metering.Rows,
                   ceiling: Option<Metering.Ceiling>, now: Metering.Instant): nat
    requires forall key | key in batch :: key in rows
  {
    if batch == [] then 0
    else
      var key, some := batch[|batch| - 1], batch[..|batch| - 1];
      Charges(some, rows, world, ledger, ceiling, now)
      + if Charged(rows[key], world(key), ReplayedAll(some, rows, world, ledger, ceiling, now).ledger, ceiling, now)
        then 1 else 0
  }

  /**
   * A pass changes only the deliveries of its batch, gives a device only those that end refused,
   * keeps every row of the ledger, and adds exactly one for each delivery it charges.
   */
  lemma {:induction false} APassChargesExactlyWhatMayRun(batch: seq<Key>, rows: map<Key, Delivery>,
                                                         world: Key -> Replay, ledger: Metering.Rows,
                                                         ceiling: Option<Metering.Ceiling>, now: Metering.Instant)
    requires Distinct(batch) && forall key | key in batch :: key in rows
    ensures
      var end := ReplayedAll(batch, rows, world, ledger, ceiling, now);
      && (forall key | key in rows && key !in batch :: end.rows[key] == rows[key])
      && (forall key | key in end.handed :: key in batch && end.rows[key].state == Rejected)
      && (forall id | id in ledger :: id in end.ledger && end.ledger[id] == ledger[id])
      && |end.ledger| == |ledger| + Charges(batch, rows, world, ledger, ceiling, now)
    decreases |batch|
  {
    if batch != [] {
      var key, some := batch[|batch| - 1], batch[..|batch| - 1];
      APassChargesExactlyWhatMayRun(some, rows, world, ledger, ceiling, now);
      var before := ReplayedAll(some, rows, world, ledger, ceiling, now);
      assert key !in some;
      AReplayChargesExactlyWhatMayRun(key.0, before.rows[key], world(key), before.ledger, ceiling, now);
      hide Replayed, Charged, Distinct, Metering.NextId;
      var end := Replayed(key.0, before.rows[key], world(key), before.ledger, ceiling, now);
      OneMoreRow(before.ledger, end.ledger, Metering.NextId(before.ledger));
    }
  }

  lemma OneMoreRow(before: Metering.Rows, after: Metering.Rows, id: nat)
    ensures after.Keys == before.Keys + {id} && id !in before ==> |after| == |before| + 1
  {
    if after.Keys == before.Keys + {id} && id !in before {
      assert |after| == |after.Keys| && |before| == |before.Keys|;
    }
  }

  lemma OneMoreReplayed(batch: seq<Key>, k: nat, rows: map<Key, Delivery>, world: Key -> Replay, ledger: Metering.Rows,
                        ceiling: Option<Metering.Ceiling>, now: Metering.Instant)
    requires k < |batch| && Distinct(batch) && forall key | key in batch :: key in rows
    ensures batch[k] in batch[k..] && batch[k] !in batch[k + 1..]
    ensures forall key | key in batch[k + 1..] :: key in batch[k..]
    ensures
      var before := ReplayedAll(batch[..k], rows, world, ledger, ceiling, now);
      var end := Replayed(batch[k].0, before.rows[batch[k]], world(batch[k]), before.ledger, ceiling, now);
      ReplayedAll(batch[..k + 1], rows, world, ledger, ceiling, now)
      == PassEnd(before.rows[batch[k] := before.rows[batch[k]].(state := end.state)], end.ledger,
                 if end.handed then before.handed + {batch[k]} else before.handed)
  {
    hide Replayed;
    assert batch[..k + 1][..k] == batch[..k];
  }

  lemma OldestExists(rows: map<Key, Delivery>, keys: set<Key>)
    requires keys != {} && keys <= rows.Keys
    ensures exists key | key in keys :: forall other | other in keys :: rows[key].createdAt <= rows[other].createdAt
    decreases keys
  {
    var one: Key :| one in keys;
    var rest := keys - {one};
    if rest == {} {
      assert keys == {one};
    } else {
      OldestExists(rows, rest);
      var best: Key :| best in rest && forall other | other in rest :: rows[best].createdAt <= rows[other].createdAt;
      var oldest := if rows[one].createdAt < rows[best].createdAt then one else best;
      assert forall other | other in keys :: rows[oldest].createdAt <= rows[other].createdAt;
    }
  }

  // ---- a dispatch's writes to the ledger, one by one ----

  /** What dispatching a record writes, by the state the claim found. */
  function WritesOf(found: Option<State>, hold: Option<nat>, record: Delivery, repository: string, answer: Answer,
                    now: Metering.Instant): seq<Metering.Event>
  {
    if found != Some(Ready) then [Metering.Release(hold, now)]
    else if answer.Started? then [Metering.Attribute(hold, repository, record.workflow, record.ref, now)]
    else if MayRun(answer) then []
    else [Metering.Release(hold, now)]
  }

  lemma OneWrite(rows: Metering.Rows, e: Metering.Event)
    ensures forall ceiling :: Metering.Run(rows, ceiling, [e]) == Metering.Next(rows, ceiling, e)
  {
    hide Metering.Next;
    forall ceiling ensures Metering.Run(rows, ceiling, [e]) == Metering.Next(rows, ceiling, e) {
      assert Metering.Run(rows, ceiling, [e]) == Metering.Run(Metering.Next(rows, ceiling, e), ceiling, []);
    }
  }

  lemma TwoWrites(rows: Metering.Rows, first: Metering.Event, second: Metering.Event)
    ensures forall ceiling ::
              Metering.Run(rows, ceiling, [first, second])
              == Metering.Next(Metering.Next(rows, ceiling, first), ceiling, second)
  {
    forall ceiling
      ensures Metering.Run(rows, ceiling, [first, second])
           == Metering.Next(Metering.Next(rows, ceiling, first), ceiling, second)
    {
      OneWrite(Metering.Next(rows, ceiling, first), second);
      assert [first, second][1..] == [second];
    }
  }

  lemma WritesAreTheSpend(rows: Metering.Rows, found: Option<State>, hold: Option<nat>, record: Delivery,
                          repository: string, answer: Answer, now: Metering.Instant)
    ensures forall ceiling ::
              Metering.Run(rows, ceiling, WritesOf(found, hold, record, repository, answer, now))
              == if found == Some(Ready) then Spend(rows, hold, record, repository, answer)
                 else Metering.Released(rows, hold)
  {
    var writes := WritesOf(found, hold, record, repository, answer, now);
    if writes != [] { OneWrite(rows, writes[0]); }
  }

  class Store {
    var rows: map<Key, Delivery>

    constructor ()
      ensures rows == map[]
    {
      rows := map[];
    }

    /** The state column of one delivery. */
    function StateOf(key: Key): (state: Option<State>)
      reads this
      ensures state.Some? <==> key in rows.Keys
      ensures key in rows.Keys ==> state.value == rows[key].state
    {
      if key in rows then Some(rows[key].state) else None
    }

    /** Only the first registration of a delivery writes; later ones read what it wrote. */
    method Register(key: Key, fingerprint: string, workflow: string, ref: string, lane: string, sha: string,
                    createdAt: real)
      returns (record: Delivery)
      modifies this
      ensures key in rows && record == rows[key]
      ensures rows == if key in old(rows) then old(rows)
                      else old(rows)[key := Delivery(fingerprint, workflow, ref, lane, sha, createdAt, Ready)]
      ensures forall w: World | w.row == old(StateOf(key)) :: Next(w, Deliveries.Register).row == StateOf(key)
    {
      if key !in rows {
        rows := rows[key := Delivery(fingerprint, workflow, ref, lane, sha, createdAt, Ready)];
      }
      return rows[key];
    }

    method Claim(key: Key) returns (won: bool)
      modifies this
      ensures won <==> old(StateOf(key)) == Some(Ready)
      ensures rows == if won then old(rows)[key := old(rows)[key].(state := Attempting)] else old(rows)
      ensures forall w: World, p | w.row == old(StateOf(key)) && At(w, p, Looking) ::
                Next(w, Deliveries.Claim(p)).row == StateOf(key)
                && (won <==> At(Next(w, Deliveries.Claim(p)), p, Sending))
    {
      won := key in rows && rows[key].state == Ready;
      if won {
        rows := rows[key := rows[key].(state := Attempting)];
      }
    }

    /** Write a result while the attempt still owns the row; otherwise the result is unknown. */
    method Finish(key: Key, state: State, writable: bool) returns (result: State)
      requires IsSettled(state)
      modifies this
      ensures
        var recorded := writable && old(StateOf(key)) == Some(Attempting);
        && result == (if recorded then state else Uncertain)
        && rows == (if recorded then old(rows)[key := old(rows)[key].(state := state)] else old(rows))
      ensures forall w: World, p | w.row == old(StateOf(key)) && p in w.procs && w.procs[p].Answered?
                                   && Outcome(w.procs[p].answer) == state ::
                Next(w, Deliveries.Finish(p, writable)).row == StateOf(key)
                && At(Next(w, Deliveries.Finish(p, writable)), p, Returned(result))
    {
      if writable && key in rows && rows[key].state == Attempting {
        rows := rows[key := rows[key].(state := state)];
        return state;
      }
      return Uncertain;
    }

    method RejectReady(key: Key) returns (rejected: bool)
      modifies this
      ensures rejected <==> old(StateOf(key)) == Some(Ready)
      ensures rows == if rejected then old(rows)[key := old(rows)[key].(state := Rejected)] else old(rows)
      ensures forall w: World, p | w.row == old(StateOf(key)) && At(w, p, Looking) ::
                Next(w, Deliveries.RejectReady(p)).row == StateOf(key)
                && (rejected <==> At(Next(w, Deliveries.RejectReady(p)), p, Refusing))
    {
      rejected := key in rows && rows[key].state == Ready;
      if rejected {
        rows := rows[key := rows[key].(state := Rejected)];
      }
    }

    /** What a restart does to attempts its previous process left behind. */
    method Recover() returns (recovered: nat)
      modifies this
      ensures rows == map key | key in old(rows) ::
                if old(rows)[key].state == Attempting then old(rows)[key].(state := Uncertain) else old(rows)[key]
      ensures recovered == |set key | key in old(rows) && old(rows)[key].state == Attempting|
    {
      recovered := |set key | key in rows && rows[key].state == Attempting|;
      rows := map key | key in rows ::
                if rows[key].state == Attempting then rows[key].(state := Uncertain) else rows[key];
    }

    /**
     * One delivery, dispatched once. The hold taken for it goes back when the claim is lost or
     * GitHub definitely refused, and stays whenever a run may exist.
     */
    method DispatchRecord(key: Key, answer: Answer, writable: bool, ledger: Metering.MeteredLedger, hold: Option<nat>)
      returns (dispatched: Dispatched)
      modifies this, ledger
      ensures old(StateOf(key)) == Some(Ready) ==>
                && rows == old(rows)[key := old(rows)[key].(state := if writable then Outcome(answer) else Attempting)]
                && ledger.rows == Spend(old(ledger.rows), hold, old(rows)[key], key.0, answer)
                && dispatched == Result(if writable then Outcome(answer) else Uncertain)
      ensures old(StateOf(key)) != Some(Ready) ==>
                && rows == old(rows)
                && ledger.rows == Metering.Released(old(ledger.rows), hold)
                && dispatched == (if old(StateOf(key)).None? then Result(Uncertain)
                                  else if IsSettled(old(rows)[key].state) then Duplicate
                                  else Result(old(rows)[key].state))
      ensures dispatched.Result? && ShouldFallback(dispatched.state) <==>
                old(StateOf(key)) == Some(Ready) && writable && !MayRun(answer)
    {
      var won := Claim(key);
      if !won {
        ledger.Release(hold);
        if key !in rows {
          return Result(Uncertain);
        }
        return if IsSettled(rows[key].state) then Duplicate else Result(rows[key].state);
      }
      var record := rows[key];
      var state;
      match answer {
        case Started =>
          ledger.Attribute(hold, key.0, record.workflow, record.ref);
          state := Finish(key, Accepted, writable);
        case DispatchError(code) =>
          var settled := if code.Some? && (code.value >= 500 || code.value in {403, 429}) then Uncertain else Rejected;
          if settled == Rejected {
            ledger.Release(hold);
          }
          state := Finish(key, settled, writable);
        case Broken =>
          state := Finish(key, Uncertain, writable);
      }
      return Result(state);
    }

    /**
     * A push from its registration on. A lost claim on a settled delivery has given the hold back
     * already when the push gives it back again: `writes` are the ledger's writes, one by one, with
     * whatever other dispatches write in between left out.
     */
    method DispatchPush(key: Key, fingerprint: string, workflow: string, ref: string, lane: string, sha: string,
                        createdAt: real, now: Metering.Instant, answer: Answer, writable: bool, device: bool,
                        ledger: Metering.MeteredLedger, hold: Option<nat>)
      returns (reply: PushAnswer, ghost writes: seq<Metering.Event>)
      modifies this, ledger
      ensures forall ceiling :: ledger.rows == Metering.Run(old(ledger.rows), ceiling, writes)
      ensures reply == Conflict <==> key in old(rows) && old(rows)[key].fingerprint != fingerprint
      ensures reply == Conflict ==> rows == old(rows) && writes == [Metering.Release(hold, now)]
      ensures reply == Repeated <==>
                key in old(rows) && old(rows)[key].fingerprint == fingerprint && IsSettled(old(rows)[key].state)
      ensures reply == Repeated ==>
                rows == old(rows) && writes == [Metering.Release(hold, now), Metering.Release(hold, now)]
      ensures reply == HandedOver <==>
                && device && writable && !MayRun(answer)
                && (key in old(rows) ==> old(rows)[key].fingerprint == fingerprint && old(rows)[key].state == Ready)
      ensures reply == HandedOver ==> key in rows && rows[key].state == Rejected
      ensures key in rows
      ensures key !in old(rows) ==>
                rows[key] == Delivery(fingerprint, workflow, ref, lane, sha, createdAt, rows[key].state)
      ensures forall other | other in old(rows) && other != key :: other in rows && rows[other] == old(rows)[other]
    {
      ghost var before := ledger.rows;
      var record := Register(key, fingerprint, workflow, ref, lane, sha, createdAt);
      if record.fingerprint != fingerprint {
        ledger.Release(hold);
        OneWrite(before, Metering.Release(hold, now));
        return Conflict, [Metering.Release(hold, now)];
      }
      var state := StateOf(key);
      var dispatched := DispatchRecord(key, answer, writable, ledger, hold);
      writes := WritesOf(state, hold, record, key.0, answer, now);
      WritesAreTheSpend(before, state, hold, record, key.0, answer, now);
      if dispatched.Duplicate? {
        ledger.Release(hold);
        TwoWrites(before, Metering.Release(hold, now), Metering.Release(hold, now));
        return Repeated, [Metering.Release(hold, now), Metering.Release(hold, now)];
      }
      if ShouldFallback(dispatched.state) && device {
        return HandedOver, writes;
      }
      return PushAnswer.Answered(dispatched.state), writes;
    }

    /** The deliveries waiting longest, up to a number of them. */
    method Pending(limit: nat) returns (batch: seq<Key>)
      ensures forall key | key in batch :: key in rows && rows[key].state == Ready
      ensures Distinct(batch) && |batch| <= limit
      ensures |batch| < limit ==> forall key | key in rows && rows[key].state == Ready :: key in batch
      ensures forall i, j | 0 <= i < j < |batch| :: rows[batch[i]].createdAt <= rows[batch[j]].createdAt
      ensures forall key, other | key in batch && other in rows && rows[other].state == Ready && other !in batch ::
                rows[key].createdAt <= rows[other].createdAt
    {
      var ready := set key | key in rows && rows[key].state == Ready;
      batch := [];
      while ready != {} && |batch| < limit
        invariant forall key | key in rows && rows[key].state == Ready :: key in ready || key in batch
        invariant forall key | key in ready :: key in rows && rows[key].state == Ready && key !in batch
        invariant forall key | key in batch :: key in rows && rows[key].state == Ready
        invariant Distinct(batch) && |batch| <= limit
        invariant forall key, other | key in batch && other in ready :: rows[key].createdAt <= rows[other].createdAt
        invariant forall i, j | 0 <= i < j < |batch| :: rows[batch[i]].createdAt <= rows[batch[j]].createdAt
        decreases ready
      {
        OldestExists(rows, ready);
        var key :| key in ready && forall other | other in ready :: rows[key].createdAt <= rows[other].createdAt;
        batch, ready := batch + [key], ready - {key};
      }
    }

    /** One replayed delivery. */
    method ReplayOne(key: Key, world: Replay, ledger: Metering.MeteredLedger, ceiling: Option<Metering.Ceiling>,
                     now: Metering.Instant)
      returns (handed: bool)
      requires StateOf(key) == Some(Ready)
      modifies this, ledger
      ensures
        var end := Replayed(key.0, old(rows)[key], world, old(ledger.rows), ceiling, now);
        && rows == old(rows)[key := old(rows)[key].(state := end.state)]
        && ledger.rows == end.ledger && handed == end.handed
    {
      hide Metering.Reserved, Spend;
      ghost var before := rows[key];
      handed := false;
      if !world.permitted || world.adapter.Missing? {
        var rejected := RejectReady(key);
        handed := rejected && world.device;
        return;
      }
      assert rows[key := before.(state := Ready)] == rows;
      if world.adapter.Unknown? {
        return;
      }
      var hold: Option<nat> := None;
      if rows[key].lane == Metering.HOSTED_LANE {
        var taken := ledger.ReserveMetered(ceiling, 0.0, now, now);
        if taken.OverBudget? {
          return;
        }
        hold := if taken.Held? then Some(taken.id) else None;
      }
      var dispatched := DispatchRecord(key, world.answer, world.recorded, ledger, hold);
      handed := dispatched.Result? && ShouldFallback(dispatched.state) && world.device;
    }

    /** One pass of the replay loop over the deliveries waiting longest. */
    method RecoverReady(world: Key -> Replay, ledger: Metering.MeteredLedger, ceiling: Option<Metering.Ceiling>,
                        now: Metering.Instant)
      returns (batch: seq<Key>, handed: set<Key>)
      modifies this, ledger
      ensures Distinct(batch) && |batch| <= 30
      ensures forall key | key in batch :: key in old(rows) && old(rows)[key].state == Ready
      ensures forall key, other |
                key in batch && other in old(rows) && old(rows)[other].state == Ready && other !in batch ::
                |batch| == 30 && old(rows)[key].createdAt <= old(rows)[other].createdAt
      ensures PassEnd(rows, ledger.rows, handed)
           == ReplayedAll(batch, old(rows), world, old(ledger.rows), ceiling, now)
    {
      batch := Pending(30);
      handed := ReplayBatch(batch, world, ledger, ceiling, now);
    }

    method ReplayBatch(batch: seq<Key>, world: Key -> Replay, ledger: Metering.MeteredLedger,
                       ceiling: Option<Metering.Ceiling>, now: Metering.Instant)
      returns (handed: set<Key>)
      requires Distinct(batch) && forall key | key in batch :: key in rows && rows[key].state == Ready
      modifies this, ledger
      ensures PassEnd(rows, ledger.rows, handed)
           == ReplayedAll(batch, old(rows), world, old(ledger.rows), ceiling, now)
    {
      handed := {};
      ghost var was, spent := rows, ledger.rows;
      assert batch[..0] == [];
      for k := 0 to |batch|
        invariant forall key | key in batch[k..] :: key in rows && rows[key] == was[key]
        invariant PassEnd(rows, ledger.rows, handed) == ReplayedAll(batch[..k], was, world, spent, ceiling, now)
      {
        hide Replayed, ReplayedAll, Distinct;
        OneMoreReplayed(batch, k, was, world, spent, ceiling, now);
        var given := ReplayOne(batch[k], world(batch[k]), ledger, ceiling, now);
        if given {
          handed := handed + {batch[k]};
        }
      }
      assert batch[..|batch|] == batch;
    }
  }
}
