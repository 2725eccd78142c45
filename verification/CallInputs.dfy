/** What a reusable call passes to the workflow it calls, and which calls are read at all. */
module CallInputs {
  import opened Prelude
  import opened Discovery
  import C = Conditions

  // ---- one guard ----

  /** Filling goes piece by piece: a token stays, an input becomes its value, and parts are filled apart. */
  lemma {:induction false} FillingGoesPieceByPiece(a: Guard, b: Guard, values: Values)
    ensures Fill([], values) == Ok([])
    ensures forall t :: Fill([Tok(t)], values) == Ok([Tok(t)])
    ensures forall name | name in values :: Fill([Input(name)], values) == Ok(Written(values[name]))
    ensures forall name | name !in values :: Fill([Input(name)], values) == Err(InputNotPassed(name))
    ensures
      var first, second := Fill(a, values), Fill(b, values);
      Fill(a + b, values)
      == if first.Err? then first else if second.Err? then second else Ok(first.value + second.value)
    decreases |a|
  {
    forall t { OnePiece(Tok(t), values); }
    forall name { OnePiece(Input(name), values); }
    if a == [] {
      assert a + b == b;
      assert Fill(b, values).Ok? ==> [] + Fill(b, values).value == Fill(b, values).value;
    } else {
      assert (a + b)[1..] == a[1..] + b;
      FillingGoesPieceByPiece(a[1..], b, values);
      AHeadIsFilledFirst(a, values);
      AHeadIsFilledFirst(a + b, values);
      hide Fill;
      var head, rest, second := Filled(a[0], values), Fill(a[1..], values), Fill(b, values);
      if head.Ok? && rest.Ok? && second.Ok? { Regroup(head.value, rest.value, second.value); }
    }
  }

  lemma Regroup(a: Guard, b: Guard, c: Guard)
    ensures a + (b + c) == a + b + c
  {
  }

  // A piece's own value, or the input that is not passed.
  function Filled(piece: Piece, values: Values): Result<Guard, CallError> {
    match piece
    case Tok(_) => Ok([piece])
    case Input(name) => if name in values then Ok(Written(values[name])) else Err(InputNotPassed(name))
  }

  lemma OnePiece(piece: Piece, values: Values)
    ensures Fill([piece], values) == Filled(piece, values)
  {
    assert [piece][1..] == [];
    assert Fill([], values) == Ok([]);
    assert [piece] + [] == [piece];
    if piece.Input? && piece.name in values { assert Written(values[piece.name]) + [] == Written(values[piece.name]); }
  }

  lemma AHeadIsFilledFirst(guard: Guard, values: Values)
    requires guard != []
    ensures
      var head, rest := Filled(guard[0], values), Fill(guard[1..], values);
      Fill(guard, values) == if head.Err? then head else if rest.Err? then rest else Ok(head.value + rest.value)
  {
  }

  /** A filled guard reads no input, and filling fails exactly when some input is not passed. */
  lemma {:induction false} AFilledGuardReadsNoInput(guard: Guard, values: Values)
    ensures Fill(guard, values).Ok? <==> forall i | 0 <= i < |guard| && guard[i].Input? :: guard[i].name in values
    ensures Fill(guard, values).Ok? ==>
              forall i | 0 <= i < |Fill(guard, values).value| :: Fill(guard, values).value[i].Tok?
  {
    if guard != [] {
      AFilledGuardReadsNoInput(guard[1..], values);
      AHeadIsFilledFirst(guard, values);
      assert forall i | 1 <= i < |guard| :: guard[i] == guard[1..][i - 1];
      hide Fill;
    }
  }

  // ---- a called workflow ----

  /** A job with its guard filled: the same steps or the same call. */
  ghost predicate IsFilled(before: Job, after: Job, values: Values) {
    match before
    case NotAMapping => after == NotAMapping
    case Steps(guard, body) =>
      && after.Steps? && after.body == body && after.guard.Some? == guard.Some?
      && (guard.Some? ==> Fill(guard.value, values) == Ok(after.guard.value))
    case Call(guard, target, given, unmapped) =>
      && after.Call? && after.target == target && after.given == given && after.unmapped == unmapped
      && after.guard.Some? == guard.Some?
      && (guard.Some? ==> Fill(guard.value, values) == Ok(after.guard.value))
  }

  ghost predicate GivenOverDefaults(values: Values, given: Values, defaults: Values) {
    && (forall name :: name in values <==> name in given || name in defaults)
    && (forall name | name in given :: values[name] == given[name])
    && (forall name | name in defaults && name !in given :: values[name] == defaults[name])
  }

  lemma {:induction false} FilledJobsKeepTheirPlaces(jobs: seq<Entry>, values: Values)
    ensures
      var filled := FillJobs(jobs, values);
      && (filled.Ok? ==> |filled.value| == |jobs| && forall i | 0 <= i < |jobs| ::
                           filled.value[i].id == jobs[i].id && IsFilled(jobs[i].job, filled.value[i].job, values))
      && (filled.Ok? <==> forall i | 0 <= i < |jobs| && !jobs[i].job.NotAMapping? && jobs[i].job.guard.Some? ::
                            Fill(jobs[i].job.guard.value, values).Ok?)
  {
    hide Fill;
    if jobs != [] {
      FilledJobsKeepTheirPlaces(jobs[1..], values);
      assert forall i | 1 <= i < |jobs| :: jobs[i] == jobs[1..][i - 1];
      if FillJobs(jobs, values).Ok? {
        assert FillJobs(jobs, values).value[1..] == FillJobs(jobs[1..], values).value;
      }
    }
  }

  /**
   * A workflow that can be read is called with what the call gives, and with its own defaults for what
   * the call leaves out: the same jobs in the same order, each guard filled.
   */
  lemma ACallPassesItsInputs(repo: Repository, path: nat, given: Values)
    ensures
      var called := ReadCall(repo, path, given);
      && (path !in repo.Keys || repo[path] == Unreadable ==> called == Err(CannotBeRead))
      && (path in repo.Keys && repo[path] == NoJobs ==> called == Err(DefinesNoJobs))
      && (called.Ok? ==>
            && path in repo.Keys && repo[path].Workflow? && |called.value| == |repo[path].jobs|
            && exists values: Values ::
                 GivenOverDefaults(values, given, repo[path].inputs)
                 && forall i | 0 <= i < |called.value| ::
                      called.value[i].id == repo[path].jobs[i].id
                      && IsFilled(repo[path].jobs[i].job, called.value[i].job, values))
  {
    if path in repo.Keys && repo[path].Workflow? {
      var values := repo[path].inputs + given;
      FilledJobsKeepTheirPlaces(repo[path].jobs, values);
      hide IsFilled, FillJobs;
      assert GivenOverDefaults(values, given, repo[path].inputs);
    }
  }

  /** A call is read exactly when its file is in the repository, is not being read, and declares what is mapped. */
  lemma ACallIsReadExactlyWhen(job: Job, seen: set<nat>)
    requires job.Call?
    ensures
      var callee := Callee(job, seen);
      && (callee.Ok? <==> job.target.File? && job.target.path !in seen && !job.unmapped)
      && (callee.Ok? ==> callee.value == job.target.path)
      && (job.target.File? && job.target.path in seen <==> callee == Err(AlreadyBeingRead))
      && (job.target == Outside <==> callee == Err(ReachesOutside))
      && (job.target == Elsewhere <==> callee == Err(NotInThisRepository))
      && (job.target == Unresolvable <==> callee == Err(CannotBeResolved))
  {
  }

  /** The caller's own guard is joined as it stands in the workflow read first, filled where inputs were passed. */
  lemma ACallersGuardIsFilled(job: Job, inputs: Option<Values>)
    requires job.Call?
    ensures job.guard == None ==> CallerGuard(job, inputs) == Ok(None)
    ensures job.guard.Some? && inputs == None ==> CallerGuard(job, inputs) == Ok(job.guard)
    ensures
      job.guard.Some? && inputs.Some? ==>
        match Fill(job.guard.value, inputs.value)
        case Ok(filled) => CallerGuard(job, inputs) == Ok(Some(filled))
        case Err(why) => CallerGuard(job, inputs) == Err(why)
  {
  }
}
