/**
 * Reusable-workflow calls replaced by the jobs of the workflows they call. A guard is its tokens,
 * with a place for each input it reads.
 */
module Discovery {
  import opened Prelude
  import C = Conditions
  import P = ConditionPrinting
  import G = ConditionGuards
  import H = ConditionChains
  import M = ConditionMeaning

  datatype Piece = Tok(token: C.Token) | Input(name: string)

  type Guard = seq<Piece>

  // Inputs in the form a guard reads them.
  type Values = map<string, C.Tokens>

  datatype Target = Elsewhere | Unresolvable | Outside | File(path: nat)

  // A job that calls no workflow keeps its own steps, told apart by `body`.
  datatype Job =
    | NotAMapping
    | Steps(guard: Option<Guard>, body: nat)
    | Call(guard: Option<Guard>, target: Target, given: Values, unmapped: bool)

  datatype Entry = Entry(id: string, job: Job)

  datatype Source = Unreadable | NoJobs | Workflow(inputs: Values, jobs: seq<Entry>)

  type Repository = map<nat, Source>

  type Jobs = map<string, Job>

  datatype CallError =
    | NotInThisRepository | CannotBeResolved | ReachesOutside | AlreadyBeingRead
    | DeclaresWhatIsNotMapped | CannotBeRead | DefinesNoJobs | InputNotPassed(name: string)

  // ---- guards ----

  function Written(tokens: C.Tokens): (guard: Guard)
    ensures |guard| == |tokens| && forall i | 0 <= i < |tokens| :: guard[i] == Tok(tokens[i])
  {
    seq(|tokens|, i requires 0 <= i < |tokens| => Tok(tokens[i]))
  }

  /** A guard with every input it reads replaced by its value. */
  function Fill(guard: Guard, values: Values): Result<Guard, CallError> {
    if guard == [] then Ok([])
    else
      match guard[0]
      case Input(name) =>
        if name !in values then Err(InputNotPassed(name))
        else
          var rest := Fill(guard[1..], values);
          if rest.Err? then rest else Ok(Written(values[name]) + rest.value)
      case Tok(_) =>
        var rest := Fill(guard[1..], values);
        if rest.Err? then rest else Ok([guard[0]] + rest.value)
  }

  function FillAny(guard: Option<Guard>, values: Values): Result<Option<Guard>, CallError> {
    match guard
    case None => Ok(None)
    case Some(g) =>
      match Fill(g, values)
      case Err(e) => Err(e)
      case Ok(filled) => Ok(Some(filled))
  }

  /** `(caller) && (called)` when both are given. */
  function Combine(caller: Option<Guard>, called: Option<Guard>): Option<Guard> {
    if caller.Some? && called.Some? then
      Some([Tok(C.Op(C.Open))] + caller.value + [Tok(C.Op(C.Close)), Tok(C.Op(C.AndOp)), Tok(C.Op(C.Open))]
           + called.value + [Tok(C.Op(C.Close))])
    else if caller.Some? then caller else called
  }

  // ---- the called workflow ----

  function FillJobs(jobs: seq<Entry>, values: Values): (filled: Result<seq<Entry>, CallError>)
    ensures filled.Ok? ==> |filled.value| == |jobs|
  {
    if jobs == [] then Ok([])
    else
      match FillJob(jobs[0].job, values)
      case Err(e) => Err(e)
      case Ok(job) =>
        match FillJobs(jobs[1..], values)
        case Err(e) => Err(e)
        case Ok(rest) => Ok([Entry(jobs[0].id, job)] + rest)
  }

  function FillJob(job: Job, values: Values): Result<Job, CallError> {
    if job.NotAMapping? then Ok(job)
    else
      match FillAny(job.guard, values)
      case Err(e) => Err(e)
      case Ok(guard) => Ok(job.(guard := guard))
  }

  /** The jobs of a called workflow, with the call's values over the declared defaults. */
  function ReadCall(repo: Repository, path: nat, given: Values): Result<seq<Entry>, CallError> {
    if path !in repo || repo[path].Unreadable? then Err(CannotBeRead)
    else if repo[path].NoJobs? then Err(DefinesNoJobs)
    else FillJobs(repo[path].jobs, repo[path].inputs + given)
  }

  /** The file a call reads, or why it is refused. */
  function Callee(job: Job, seen: set<nat>): Result<nat, CallError>
    requires job.Call?
  {
    match job.target
    case Elsewhere => Err(NotInThisRepository)
    case Unresolvable => Err(CannotBeResolved)
    case Outside => Err(ReachesOutside)
    case File(path) =>
      if path in seen then Err(AlreadyBeingRead)
      else if job.unmapped then Err(DeclaresWhatIsNotMapped)
      else Ok(path)
  }

  // ---- inlining ----

  predicate HasMapping(jobs: Jobs) {
    exists id | id in jobs :: !jobs[id].NotAMapping?
  }

  /** The caller's guard as it is joined to each called job's. */
  function CallerGuard(job: Job, inputs: Option<Values>): Result<Option<Guard>, CallError>
    requires job.Call?
  {
    if inputs.None? then Ok(job.guard) else FillAny(job.guard, inputs.value)
  }

  function Under(id: string, name: string): string {
    id + "/" + name
  }

  /** A called workflow's jobs under the id of the job that calls it, each with both guards. */
  function Inlined(id: string, guard: Option<Guard>, called: Jobs): (jobs: Jobs)
    requires forall name | name in called :: !called[name].Call?
    ensures forall name | name in jobs :: jobs[name].Steps?
    ensures forall name | name in called && called[name].Steps? ::
              && Under(id, name) in jobs
              && jobs[Under(id, name)] == Steps(Combine(guard, called[name].guard), called[name].body)
    ensures forall full | full in jobs ::
              exists name | name in called :: called[name].Steps? && full == Under(id, name)
  {
    var names := set name | name in called && called[name].Steps? :: Under(id, name);
    map full | full in names ::
      var inner := called[full[|id| + 1..]];
      Steps(Combine(guard, inner.guard), inner.body)
  }

  lemma SeenGrows(repo: Repository, seen: set<nat>, path: nat)
    requires path in repo && path !in seen
    ensures |repo.Keys - (seen + {path})| < |repo.Keys - seen|
  {
    assert repo.Keys - seen == (repo.Keys - (seen + {path})) + {path};
  }

  /** The jobs of a workflow with every call replaced, read while the files in `seen` are being read. */
  function Expand(repo: Repository, jobs: seq<Entry>, seen: set<nat>, inputs: Option<Values>)
    : (r: Result<Jobs, CallError>)
    ensures r.Ok? ==> forall name | name in r.value :: !r.value[name].Call?
    decreases |repo.Keys - seen|, |jobs|, 2
  {
    if jobs == [] then Ok(map[])
    else
      var n := |jobs| - 1;
      var before := Expand(repo, jobs[..n], seen, inputs);
      if before.Err? then before
      else
        match Contribution(repo, jobs[n], seen, inputs)
        case Err(e) => Err(e)
        case Ok(jobs) => Ok(before.value + jobs)
  }

  /** What one job of a workflow becomes. */
  function Contribution(repo: Repository, entry: Entry, seen: set<nat>, inputs: Option<Values>)
    : (r: Result<Jobs, CallError>)
    ensures r.Ok? ==> forall name | name in r.value :: !r.value[name].Call?
    decreases |repo.Keys - seen|, 0, 1
  {
    if !entry.job.Call? then Ok(map[entry.id := entry.job])
    else
      match ExpandCall(repo, entry.job, seen, inputs)
      case Err(e) => Err(e)
      case Ok((guard, called)) => Ok(Inlined(entry.id, guard, called))
  }

  /** A call's guard and the jobs it stands for. */
  function ExpandCall(repo: Repository, job: Job, seen: set<nat>, inputs: Option<Values>)
    : (r: Result<(Option<Guard>, Jobs), CallError>)
    requires job.Call?
    ensures r.Ok? ==> forall name | name in r.value.1 :: !r.value.1[name].Call?
    decreases |repo.Keys - seen|, 0, 0
  {
    match Callee(job, seen)
    case Err(e) => Err(e)
    case Ok(path) =>
      match ReadCall(repo, path, job.given)
      case Err(e) => Err(e)
      case Ok(jobs) =>
        SeenGrows(repo, seen, path);
        match Expand(repo, jobs, seen + {path}, None)
        case Err(e) => Err(e)
        case Ok(called) =>
          var guard := CallerGuard(job, inputs);
          if !HasMapping(called) then Ok((None, map[]))
          else if guard.Err? then Err(guard.error)
          else Ok((guard.value, called))
  }

  // ---- a job followed through the files, without any record of what was read ----

  // What stands at the end of a chain of calls: the guards on the way, outermost first, and the steps.
  datatype Leaf = Leaf(guards: seq<Option<Guard>>, body: nat)

  /**
   * The steps a chain of job ids leads to: each id but the last names a call, in the workflow the
   * one before it calls.
   */
  function Follow(repo: Repository, jobs: seq<Entry>, chain: seq<string>, inputs: Option<Values>): Option<Leaf>
    decreases |chain|
  {
    if chain == [] then None
    else
      match Named(jobs, chain[0])
      case None => None
      case Some(NotAMapping) => None
      case Some(Steps(guard, body)) => if |chain| == 1 then Some(Leaf([guard], body)) else None
      case Some(job) =>
        if job.target.File? then
          var called := ReadCall(repo, job.target.path, job.given);
          var guard := CallerGuard(job, inputs);
          if called.Err? || guard.Err? then None
          else
            match Follow(repo, called.value, chain[1..], None)
            case None => None
            case Some(leaf) => Some(Leaf([guard.value] + leaf.guards, leaf.body))
        else None
  }

  function Named(jobs: seq<Entry>, id: string): Option<Job> {
    if jobs == [] then None
    else if jobs[|jobs| - 1].id == id then Some(jobs[|jobs| - 1].job)
    else Named(jobs[..|jobs| - 1], id)
  }

  /** All the guards of a chain, joined as inlining joins them. */
  function Together(guards: seq<Option<Guard>>): Option<Guard> {
    if guards == [] then None
    else if |guards| == 1 then guards[0]
    else Combine(guards[0], Together(guards[1..]))
  }

  function Path(chain: seq<string>): string {
    if chain == [] then "" else if |chain| == 1 then chain[0] else Under(chain[0], Path(chain[1..]))
  }

  ghost predicate Slashless(id: string) {
    forall i | 0 <= i < |id| :: id[i] != '/'
  }

  // A dictionary's keys differ.
  ghost predicate Keyed(jobs: seq<Entry>) {
    forall i, j | 0 <= i < j < |jobs| :: jobs[i].id != jobs[j].id
  }

  ghost predicate KeyedRepository(repo: Repository) {
    forall path | path in repo && repo[path].Workflow? :: Keyed(repo[path].jobs)
  }

  // No id looks like the path of an inlined job.
  ghost predicate Plain(jobs: seq<Entry>) {
    Keyed(jobs) && forall i | 0 <= i < |jobs| :: Slashless(jobs[i].id)
  }

  ghost predicate PlainRepository(repo: Repository) {
    forall path | path in repo && repo[path].Workflow? :: Plain(repo[path].jobs)
  }

  // ---- what inlining leaves ----

  function Head(name: string): string {
    if name == "" || name[0] == '/' then "" else [name[0]] + Head(name[1..])
  }

  lemma {:induction false} HeadOfAPath(id: string, rest: string)
    requires Slashless(id)
    ensures Head(id) == id && Head(Under(id, rest)) == id
  {
    if id != "" {
      assert Under(id, rest)[1..] == Under(id[1..], rest);
      HeadOfAPath(id[1..], rest);
    }
  }

  lemma ContributionsStayApart(repo: Repository, entry: Entry, seen: set<nat>, inputs: Option<Values>)
    requires Slashless(entry.id) && Contribution(repo, entry, seen, inputs).Ok?
    ensures forall name | name in Contribution(repo, entry, seen, inputs).value :: Head(name) == entry.id
  {
    HeadOfAPath(entry.id, "");
    if entry.job.Call? {
      var (guard, called) := ExpandCall(repo, entry.job, seen, inputs).value;
      hide Expand, ExpandCall, Callee, ReadCall, Head;
      forall full | full in Inlined(entry.id, guard, called) ensures Head(full) == entry.id {
        var name :| name in called && full == Under(entry.id, name);
        HeadOfAPath(entry.id, name);
      }
    }
  }

  /** In the result, what stands under a job's id is what that job became, and nothing else. */
  lemma {:induction false} EachJobStandsForItself(repo: Repository, jobs: seq<Entry>, seen: set<nat>,
                                                  inputs: Option<Values>, i: nat)
    requires Plain(jobs) && i < |jobs| && Expand(repo, jobs, seen, inputs).Ok?
    ensures Contribution(repo, jobs[i], seen, inputs).Ok?
    ensures
      var all, own := Expand(repo, jobs, seen, inputs).value, Contribution(repo, jobs[i], seen, inputs).value;
      forall name | Head(name) == jobs[i].id ::
        (name in all <==> name in own) && (name in all ==> all[name] == own[name])
    decreases |jobs|
  {
    var n := |jobs| - 1;
    ContributionsStayApart(repo, jobs[n], seen, inputs);
    if i < n {
      EachJobStandsForItself(repo, jobs[..n], seen, inputs, i);
      hide Contribution;
    } else {
      NothingElseIsAdded(repo, jobs[..n], seen, inputs);
      hide Contribution;
    }
  }

  lemma {:induction false} NothingElseIsAdded(repo: Repository, jobs: seq<Entry>, seen: set<nat>,
                                              inputs: Option<Values>)
    requires Plain(jobs) && Expand(repo, jobs, seen, inputs).Ok?
    ensures forall name | name in Expand(repo, jobs, seen, inputs).value ::
              exists i | 0 <= i < |jobs| :: jobs[i].id == Head(name)
    decreases |jobs|
  {
    if jobs != [] {
      var n := |jobs| - 1;
      NothingElseIsAdded(repo, jobs[..n], seen, inputs);
      ContributionsStayApart(repo, jobs[n], seen, inputs);
      forall name | name in Expand(repo, jobs, seen, inputs).value
        ensures exists i | 0 <= i < |jobs| :: jobs[i].id == Head(name)
      {
        if name in Expand(repo, jobs[..n], seen, inputs).value {
          var i :| 0 <= i < n && jobs[..n][i].id == Head(name);
          assert jobs[i].id == Head(name);
        } else {
          assert jobs[n].id == Head(name);
        }
      }
    }
  }

  lemma {:induction false} NamedIsAt(jobs: seq<Entry>, id: string)
    ensures
      match Named(jobs, id)
      case None => forall i | 0 <= i < |jobs| :: jobs[i].id != id
      case Some(job) => exists i | 0 <= i < |jobs| :: jobs[i] == Entry(id, job)
  {
    if jobs != [] {
      var n := |jobs| - 1;
      NamedIsAt(jobs[..n], id);
      if jobs[n].id == id {
        assert jobs[n] == Entry(id, jobs[n].job);
      } else if Named(jobs, id).Some? {
        var i :| 0 <= i < n && jobs[..n][i] == Entry(id, Named(jobs, id).value);
        assert jobs[i] == Entry(id, Named(jobs, id).value);
      }
    }
  }

  lemma {:induction false} ThereItIsNamed(jobs: seq<Entry>, i: nat)
    requires Keyed(jobs) && i < |jobs|
    ensures Named(jobs, jobs[i].id) == Some(jobs[i].job)
  {
    if i < |jobs| - 1 { ThereItIsNamed(jobs[..|jobs| - 1], i); }
  }

  lemma {:induction false} FillingKeepsIds(jobs: seq<Entry>, values: Values)
    requires FillJobs(jobs, values).Ok?
    ensures
      var filled := FillJobs(jobs, values).value;
      |filled| == |jobs| && forall i | 0 <= i < |jobs| :: filled[i].id == jobs[i].id
  {
    if jobs != [] { FillingKeepsIds(jobs[1..], values); }
  }

  lemma CalledJobsAreKeyed(repo: Repository, path: nat, given: Values)
    requires KeyedRepository(repo) && ReadCall(repo, path, given).Ok?
    ensures Keyed(ReadCall(repo, path, given).value) && path in repo
  {
    FillingKeepsIds(repo[path].jobs, repo[path].inputs + given);
  }

  lemma CalledJobsArePlain(repo: Repository, path: nat, given: Values)
    requires PlainRepository(repo) && ReadCall(repo, path, given).Ok?
    ensures Plain(ReadCall(repo, path, given).value) && path in repo
  {
    FillingKeepsIds(repo[path].jobs, repo[path].inputs + given);
  }

  // A job of the result, as the chain it came from says it should be.
  ghost predicate StandsFor(all: Jobs, name: string, leaf: Leaf) {
    name in all && all[name] == Steps(Together(leaf.guards), leaf.body)
  }

  /** Every job a chain of calls leads to is in the result, carrying every guard of the chain. */
  lemma {:induction false} EveryChainIsInlined(repo: Repository, jobs: seq<Entry>, seen: set<nat>,
                                               inputs: Option<Values>,
                                               chain: seq<string>)
    requires PlainRepository(repo) && Plain(jobs) && Expand(repo, jobs, seen, inputs).Ok?
    requires chain != [] && Follow(repo, jobs, chain, inputs).Some?
    ensures StandsFor(Expand(repo, jobs, seen, inputs).value, Path(chain), Follow(repo, jobs, chain, inputs).value)
    decreases |chain|
  {
    NamedIsAt(jobs, chain[0]);
    var job := Named(jobs, chain[0]).value;
    var i :| 0 <= i < |jobs| && jobs[i] == Entry(chain[0], job);
    EachJobStandsForItself(repo, jobs, seen, inputs, i);
    hide Expand, Head, Slashless;
    if job.Steps? {
      HeadOfAPath(chain[0], "");
    } else {
      HeadOfAPath(chain[0], Path(chain[1..]));
      WhatACallBecomes(repo, jobs[i], seen, inputs);
      CalledJobsArePlain(repo, job.target.path, job.given);
      var called := ReadCall(repo, job.target.path, job.given).value;
      hide ReadCall, Contribution, Combine, CallerGuard;
      EveryChainIsInlined(repo, called, seen + {job.target.path}, None, chain[1..]);
      GuardsAreThere(repo, called, chain[1..], None);
      var leaf := Follow(repo, called, chain[1..], None).value;
      assert Together([CallerGuard(job, inputs).value] + leaf.guards)
          == Combine(CallerGuard(job, inputs).value, Together(leaf.guards));
    }
  }

  /** Each job with steps in a called workflow's expansion stands under the calling job's id. */
  lemma WhatACallBecomes(repo: Repository, entry: Entry, seen: set<nat>, inputs: Option<Values>)
    requires entry.job.Call? && Contribution(repo, entry, seen, inputs).Ok?
    ensures entry.job.target.File? && ReadCall(repo, entry.job.target.path, entry.job.given).Ok?
    ensures
      var path, own := entry.job.target.path, Contribution(repo, entry, seen, inputs).value;
      var within := Expand(repo, ReadCall(repo, path, entry.job.given).value, seen + {path}, None);
      && within.Ok?
      && forall inner | inner in within.value && within.value[inner].Steps? ::
           && CallerGuard(entry.job, inputs).Ok? && Under(entry.id, inner) in own
           && own[Under(entry.id, inner)]
              == Steps(Combine(CallerGuard(entry.job, inputs).value, within.value[inner].guard),
                       within.value[inner].body)
  {
    hide Expand, ReadCall;
  }

  // The called workflow's job that a job of the result came from.
  lemma InlinedFrom(repo: Repository, entry: Entry, seen: set<nat>, inputs: Option<Values>, name: string)
    returns (inner: string)
    requires entry.job.Call? && Contribution(repo, entry, seen, inputs).Ok?
    requires name in Contribution(repo, entry, seen, inputs).value
    ensures name == Under(entry.id, inner) && |inner| < |name|
    ensures entry.job.target.File? && ReadCall(repo, entry.job.target.path, entry.job.given).Ok?
    ensures CallerGuard(entry.job, inputs).Ok?
    ensures
      var path := entry.job.target.path;
      var within := Expand(repo, ReadCall(repo, path, entry.job.given).value, seen + {path}, None);
      && within.Ok? && inner in within.value && within.value[inner].Steps?
      && Contribution(repo, entry, seen, inputs).value[name]
         == Steps(Combine(CallerGuard(entry.job, inputs).value, within.value[inner].guard), within.value[inner].body)
  {
    var (guard, called) := ExpandCall(repo, entry.job, seen, inputs).value;
    inner :| inner in called && called[inner].Steps? && name == Under(entry.id, inner);
    hide Expand, ReadCall;
  }

  lemma FollowedFrom(repo: Repository, jobs: seq<Entry>, entry: Entry, called: seq<Entry>, rest: seq<string>,
                     inputs: Option<Values>)
    requires Named(jobs, entry.id) == Some(entry.job) && entry.job.Call? && entry.job.target.File?
    requires ReadCall(repo, entry.job.target.path, entry.job.given) == Ok(called) && CallerGuard(entry.job, inputs).Ok?
    requires rest != [] && Follow(repo, called, rest, None).Some?
    ensures
      var chain, leaf := [entry.id] + rest, Follow(repo, called, rest, None).value;
      var guard := CallerGuard(entry.job, inputs).value;
      && Path(chain) == Under(entry.id, Path(rest))
      && Follow(repo, jobs, chain, inputs) == Some(Leaf([guard] + leaf.guards, leaf.body))
      && Together([guard] + leaf.guards) == Combine(guard, Together(leaf.guards))
  {
    var chain := [entry.id] + rest;
    assert chain[1..] == rest;
    GuardsAreThere(repo, called, rest, None);
    hide ReadCall, CallerGuard, Named, Combine;
  }

  lemma {:induction false} GuardsAreThere(repo: Repository, jobs: seq<Entry>, chain: seq<string>,
                                          inputs: Option<Values>)
    requires Follow(repo, jobs, chain, inputs).Some?
    ensures Follow(repo, jobs, chain, inputs).value.guards != []
  {
  }

  /** Every job of the result is what some job of the workflow became. */
  lemma {:induction false} EveryJobIsContributed(repo: Repository, jobs: seq<Entry>, seen: set<nat>,
                                                 inputs: Option<Values>, name: string) returns (i: nat)
    requires Expand(repo, jobs, seen, inputs).Ok? && name in Expand(repo, jobs, seen, inputs).value
    ensures i < |jobs| && Contribution(repo, jobs[i], seen, inputs).Ok?
    ensures
      var own := Contribution(repo, jobs[i], seen, inputs).value;
      name in own && own[name] == Expand(repo, jobs, seen, inputs).value[name]
    decreases |jobs|
  {
    hide Contribution;
    var n := |jobs| - 1;
    if name in Contribution(repo, jobs[n], seen, inputs).value {
      i := n;
    } else {
      i := EveryJobIsContributed(repo, jobs[..n], seen, inputs, name);
    }
  }

  lemma {:induction false} EveryContributionIsOk(repo: Repository, jobs: seq<Entry>, seen: set<nat>,
                                                 inputs: Option<Values>, i: nat)
    requires i < |jobs| && Expand(repo, jobs, seen, inputs).Ok?
    ensures Contribution(repo, jobs[i], seen, inputs).Ok?
    decreases |jobs|
  {
    hide Contribution;
    if i < |jobs| - 1 { EveryContributionIsOk(repo, jobs[..|jobs| - 1], seen, inputs, i); }
  }

  /** Every job with steps in the result is one a chain of calls leads to, and carries all its guards. */
  lemma {:induction false} EveryInlinedJobCarriesItsChain(repo: Repository, jobs: seq<Entry>, seen: set<nat>,
                                                          inputs: Option<Values>, name: string)
    returns (chain: seq<string>)
    requires KeyedRepository(repo) && Keyed(jobs) && Expand(repo, jobs, seen, inputs).Ok?
    requires var all := Expand(repo, jobs, seen, inputs).value; name in all && all[name].Steps?
    ensures chain != [] && Path(chain) == name && Follow(repo, jobs, chain, inputs).Some?
    ensures StandsFor(Expand(repo, jobs, seen, inputs).value, name, Follow(repo, jobs, chain, inputs).value)
    decreases |name|
  {
    var i := EveryJobIsContributed(repo, jobs, seen, inputs, name);
    ThereItIsNamed(jobs, i);
    var entry := jobs[i];
    hide Expand;
    if entry.job.Call? {
      var inner := InlinedFrom(repo, entry, seen, inputs, name);
      var path := entry.job.target.path;
      var called := ReadCall(repo, path, entry.job.given).value;
      CalledJobsAreKeyed(repo, path, entry.job.given);
      hide *;
      var rest := EveryInlinedJobCarriesItsChain(repo, called, seen + {path}, None, inner);
      chain := [entry.id] + rest;
      FollowedFrom(repo, jobs, entry, called, rest, inputs);
    } else {
      chain := [entry.id];
    }
  }

  lemma {:induction false} APathIsLonger(chain: seq<string>)
    requires |chain| > 1
    ensures |Path(chain)| > |chain[0]|
  {
  }

  /**
   * Slashes are what keeps jobs apart: whatever chain of calls a workflow has, a later job whose
   * id is that chain's path takes the inlined job's place, and nothing is refused.
   */
  lemma ALaterJobTakesThePlace(repo: Repository, jobs: seq<Entry>, seen: set<nat>, inputs: Option<Values>,
                               chain: seq<string>, other: Job)
    requires Expand(repo, jobs, seen, inputs).Ok? && !other.Call?
    requires |chain| > 1 && Follow(repo, jobs, chain, inputs).Some?
    ensures
      var more := jobs + [Entry(Path(chain), other)];
      && Follow(repo, more, chain, inputs) == Follow(repo, jobs, chain, inputs)
      && Expand(repo, more, seen, inputs).Ok?
      && Path(chain) in Expand(repo, more, seen, inputs).value
      && Expand(repo, more, seen, inputs).value[Path(chain)] == other
  {
    var more := jobs + [Entry(Path(chain), other)];
    APathIsLonger(chain);
    assert more[..|jobs|] == jobs;
    assert Named(more, chain[0]) == Named(jobs, chain[0]);
    assert Contribution(repo, more[|jobs|], seen, inputs) == Ok(map[Path(chain) := other]);
    hide Contribution, ReadCall, CallerGuard;
  }

  // ---- exactly when every chain keeps its job ----

  lemma {:induction false} NothingContributedIsDropped(repo: Repository, jobs: seq<Entry>, seen: set<nat>,
                                                       inputs: Option<Values>, i: nat)
    requires i < |jobs| && Expand(repo, jobs, seen, inputs).Ok?
    ensures Contribution(repo, jobs[i], seen, inputs).Ok?
    ensures Contribution(repo, jobs[i], seen, inputs).value.Keys <= Expand(repo, jobs, seen, inputs).value.Keys
    decreases |jobs|
  {
    hide Contribution;
    if i < |jobs| - 1 { NothingContributedIsDropped(repo, jobs[..|jobs| - 1], seen, inputs, i); }
  }

  /** Whether a job that is not a mapping is named as the path, after the job the chain starts with. */
  ghost predicate Overwritten(jobs: seq<Entry>, i: nat, path: string) {
    exists j | i < j < |jobs| :: jobs[j].id == path && jobs[j].job.NotAMapping?
  }

  /** Whether, on some level of the chain, a job that is not a mapping takes its path afterwards. */
  ghost predicate Shadowed(repo: Repository, jobs: seq<Entry>, chain: seq<string>)
    decreases |chain|
  {
    chain != [] &&
    (|| (exists i | 0 <= i < |jobs| :: jobs[i].id == chain[0] && Overwritten(jobs, i, Path(chain)))
     || match Named(jobs, chain[0])
        case Some(Call(_, File(path), given, _)) =>
          var called := ReadCall(repo, path, given);
          called.Ok? && Shadowed(repo, called.value, chain[1..])
        case _ => false)
  }

  /** The last job that contributes a name decides what stands under it. */
  lemma {:induction false} TheLastOfItsNameStands(repo: Repository, jobs: seq<Entry>, seen: set<nat>,
                                                  inputs: Option<Values>, name: string) returns (i: nat)
    requires Expand(repo, jobs, seen, inputs).Ok? && name in Expand(repo, jobs, seen, inputs).value
    ensures i < |jobs| && Contribution(repo, jobs[i], seen, inputs).Ok?
    ensures
      var own := Contribution(repo, jobs[i], seen, inputs).value;
      name in own && own[name] == Expand(repo, jobs, seen, inputs).value[name]
    ensures forall j | i < j < |jobs| ::
              Contribution(repo, jobs[j], seen, inputs).Ok? && name !in Contribution(repo, jobs[j], seen, inputs).value
    decreases |jobs|
  {
    hide Contribution;
    var n := |jobs| - 1;
    if name in Contribution(repo, jobs[n], seen, inputs).value {
      i := n;
    } else {
      i := TheLastOfItsNameStands(repo, jobs[..n], seen, inputs, name);
      assert forall j | i < j < n :: jobs[..n][j] == jobs[j];
    }
  }

  /** A name that stands for steps was not taken by a later job that is not a mapping. */
  lemma StandingIsNotOverwritten(repo: Repository, jobs: seq<Entry>, seen: set<nat>, inputs: Option<Values>,
                                 i: nat, name: string)
    requires i < |jobs|
    requires forall j | i < j < |jobs| ::
               Contribution(repo, jobs[j], seen, inputs).Ok? && name !in Contribution(repo, jobs[j], seen, inputs).value
    ensures !Overwritten(jobs, i, name)
  {
    hide Expand, ExpandCall;
    forall j | i < j < |jobs| && jobs[j].job.NotAMapping? ensures jobs[j].id != name {
      assert Contribution(repo, jobs[j], seen, inputs) == Ok(map[jobs[j].id := jobs[j].job]);
    }
  }

  /** Every job with steps stands for a chain that nothing takes the path of afterwards. */
  lemma {:induction false} EveryJobStandsForAnUnshadowedChain(repo: Repository, jobs: seq<Entry>, seen: set<nat>,
                                                              inputs: Option<Values>, name: string)
    returns (chain: seq<string>)
    requires KeyedRepository(repo) && Keyed(jobs) && Expand(repo, jobs, seen, inputs).Ok?
    requires var all := Expand(repo, jobs, seen, inputs).value; name in all && all[name].Steps?
    ensures Leads(repo, jobs, inputs, chain) && Path(chain) == name && !Shadowed(repo, jobs, chain)
    ensures StandsFor(Expand(repo, jobs, seen, inputs).value, name, LeafOf(repo, jobs, inputs, chain))
    decreases |name|
  {
    var i := TheLastOfItsNameStands(repo, jobs, seen, inputs, name);
    StandingIsNotOverwritten(repo, jobs, seen, inputs, i, name);
    ThereItIsNamed(jobs, i);
    var entry := jobs[i];
    hide Expand;
    if entry.job.Call? {
      var inner := InlinedFrom(repo, entry, seen, inputs, name);
      var path := entry.job.target.path;
      var called := ReadCall(repo, path, entry.job.given).value;
      CalledJobsAreKeyed(repo, path, entry.job.given);
      hide *;
      var rest := EveryJobStandsForAnUnshadowedChain(repo, called, seen + {path}, None, inner);
      chain := [entry.id] + rest;
      LeadsFurther(repo, jobs, entry, called, rest, inputs);
      ShadowedFurther(repo, jobs, i, called, rest);
    } else {
      chain := [entry.id];
      OnlyItsOwnName(repo, jobs, i);
    }
  }

  lemma OnlyItsOwnName(repo: Repository, jobs: seq<Entry>, i: nat)
    requires Keyed(jobs) && i < |jobs| && !jobs[i].job.Call?
    ensures !Shadowed(repo, jobs, [jobs[i].id])
  {
    ThereItIsNamed(jobs, i);
  }

  lemma LeadsFurther(repo: Repository, jobs: seq<Entry>, entry: Entry, called: seq<Entry>, rest: seq<string>,
                     inputs: Option<Values>)
    requires Named(jobs, entry.id) == Some(entry.job) && entry.job.Call? && entry.job.target.File?
    requires ReadCall(repo, entry.job.target.path, entry.job.given) == Ok(called) && CallerGuard(entry.job, inputs).Ok?
    requires Leads(repo, called, None, rest)
    ensures
      var chain, leaf := [entry.id] + rest, LeafOf(repo, called, None, rest);
      var guard := CallerGuard(entry.job, inputs).value;
      && Leads(repo, jobs, inputs, chain) && Path(chain) == Under(entry.id, Path(rest))
      && LeafOf(repo, jobs, inputs, chain).body == leaf.body
      && Together(LeafOf(repo, jobs, inputs, chain).guards) == Combine(guard, Together(leaf.guards))
  {
    FollowedFrom(repo, jobs, entry, called, rest, inputs);
    hide Follow, Path, Together, Named, ReadCall, CallerGuard, Combine;
  }

  lemma ShadowedFurther(repo: Repository, jobs: seq<Entry>, i: nat, called: seq<Entry>, rest: seq<string>)
    requires Keyed(jobs) && i < |jobs| && jobs[i].job.Call? && jobs[i].job.target.File? && rest != []
    requires ReadCall(repo, jobs[i].job.target.path, jobs[i].job.given) == Ok(called)
    ensures Shadowed(repo, jobs, [jobs[i].id] + rest)
       <==> Overwritten(jobs, i, Under(jobs[i].id, Path(rest))) || Shadowed(repo, called, rest)
  {
    var chain := [jobs[i].id] + rest;
    assert chain[1..] == rest && Path(chain) == Under(jobs[i].id, Path(rest));
    ThereItIsNamed(jobs, i);
    hide ReadCall, Overwritten, Path, Named;
    if Shadowed(repo, jobs, chain) && !Shadowed(repo, called, rest) {
      var k :| 0 <= k < |jobs| && jobs[k].id == chain[0] && Overwritten(jobs, k, Path(chain));
      assert k == i;
    }
  }

  // A chain's first job has its steps, or calls the workflow the rest of the chain is in.
  ghost predicate StartsAt(repo: Repository, jobs: seq<Entry>, i: nat, chain: seq<string>)
    requires i < |jobs|
  {
    var job := jobs[i].job;
    && |chain| > 0 && jobs[i].id == chain[0]
    && if |chain| == 1 then job.Steps?
       else
         && job.Call? && job.target.File? && ReadCall(repo, job.target.path, job.given).Ok?
         && Leads(repo, ReadCall(repo, job.target.path, job.given).value, None, chain[1..])
  }

  lemma AChainStartsAt(repo: Repository, jobs: seq<Entry>, inputs: Option<Values>, chain: seq<string>) returns (i: nat)
    requires Leads(repo, jobs, inputs, chain)
    ensures i < |jobs| && StartsAt(repo, jobs, i, chain)
  {
    NamedIsAt(jobs, chain[0]);
    hide Named, ReadCall, CallerGuard;
    var job := Named(jobs, chain[0]).value;
    var k :| 0 <= k < |jobs| && jobs[k] == Entry(chain[0], job);
    i := k;
    if job.Call? {
      var called := ReadCall(repo, job.target.path, job.given).value;
      assert Follow(repo, called, chain[1..], None).Some?;
      assert chain[1..] != [];
    }
  }

  /** Where nothing takes a chain's path, nothing takes the rest's in the workflow it is in. */
  lemma NothingTakesTheRest(repo: Repository, jobs: seq<Entry>, i: nat, chain: seq<string>)
    requires Keyed(jobs) && i < |jobs| && StartsAt(repo, jobs, i, chain) && !Shadowed(repo, jobs, chain)
    ensures !Overwritten(jobs, i, Path(chain))
    ensures
      |chain| > 1 ==> !Shadowed(repo, ReadCall(repo, jobs[i].job.target.path, jobs[i].job.given).value, chain[1..])
  {
    hide ReadCall, Overwritten, Path;
    if |chain| > 1 {
      assert chain == [chain[0]] + chain[1..];
      ShadowedFurther(repo, jobs, i, ReadCall(repo, jobs[i].job.target.path, jobs[i].job.given).value, chain[1..]);
    }
  }

  lemma OnwardPath(chain: seq<string>)
    ensures |chain| == 1 ==> Path(chain) == chain[0]
    ensures |chain| > 1 ==> Path(chain) == Under(chain[0], Path(chain[1..]))
  {
  }

  lemma AStepsJobContributesItself(repo: Repository, entry: Entry, seen: set<nat>, inputs: Option<Values>)
    requires entry.job.Steps?
    ensures Contribution(repo, entry, seen, inputs) == Ok(map[entry.id := entry.job])
  {
  }

  /** Where nothing takes a chain's path afterwards, some job with steps stands there. */
  lemma {:induction false} AnUnshadowedPathHasSteps(repo: Repository, jobs: seq<Entry>, seen: set<nat>,
                                                    inputs: Option<Values>, chain: seq<string>)
    requires KeyedRepository(repo) && Keyed(jobs) && Expand(repo, jobs, seen, inputs).Ok?
    requires Leads(repo, jobs, inputs, chain) && !Shadowed(repo, jobs, chain)
    ensures Path(chain) in Expand(repo, jobs, seen, inputs).value
    ensures Expand(repo, jobs, seen, inputs).value[Path(chain)].Steps?
    decreases |chain|
  {
    var i := AChainStartsAt(repo, jobs, inputs, chain);
    NothingContributedIsDropped(repo, jobs, seen, inputs, i);
    NothingTakesTheRest(repo, jobs, i, chain);
    OnwardPath(chain);
    hide Expand, Contribution, ReadCall, CallerGuard, Shadowed, Overwritten, Combine, Path, Leads, Under;
    hide KeyedRepository;
    if |chain| > 1 {
      var job := jobs[i].job;
      WhatACallBecomes(repo, jobs[i], seen, inputs);
      CalledJobsAreKeyed(repo, job.target.path, job.given);
      AnUnshadowedPathHasSteps(repo, ReadCall(repo, job.target.path, job.given).value, seen + {job.target.path}, None,
                               chain[1..]);
    } else {
      AStepsJobContributesItself(repo, jobs[i], seen, inputs);
    }
    WhatStandsBehindHasSteps(repo, jobs, seen, inputs, i, Path(chain));
  }

  lemma WhatStandsBehindHasSteps(repo: Repository, jobs: seq<Entry>, seen: set<nat>, inputs: Option<Values>,
                                 i: nat, name: string)
    requires Expand(repo, jobs, seen, inputs).Ok? && i < |jobs| && !Overwritten(jobs, i, name)
    requires Contribution(repo, jobs[i], seen, inputs).Ok? && name in Contribution(repo, jobs[i], seen, inputs).value
    requires Contribution(repo, jobs[i], seen, inputs).value[name].Steps?
    requires name in Expand(repo, jobs, seen, inputs).value
    ensures Expand(repo, jobs, seen, inputs).value[name].Steps?
  {
    var last := TheLastOfItsNameStands(repo, jobs, seen, inputs, name);
    hide Expand, ExpandCall;
    assert jobs[last].job.NotAMapping? ==> jobs[last].id == name;
  }

  ghost predicate Leads(repo: Repository, jobs: seq<Entry>, inputs: Option<Values>, chain: seq<string>) {
    chain != [] && Follow(repo, jobs, chain, inputs).Some?
  }

  function LeafOf(repo: Repository, jobs: seq<Entry>, inputs: Option<Values>, chain: seq<string>): Leaf {
    var leaf := Follow(repo, jobs, chain, inputs);
    if leaf.Some? then leaf.value else Leaf([], 0)
  }

  /** No two chains with one path lead to different steps or different joined guards. */
  ghost predicate Unambiguous(repo: Repository, jobs: seq<Entry>, inputs: Option<Values>) {
    forall one, other |
      Leads(repo, jobs, inputs, one) && Leads(repo, jobs, inputs, other) && Path(one) == Path(other) ::
      var a, b := LeafOf(repo, jobs, inputs, one), LeafOf(repo, jobs, inputs, other);
      Together(a.guards) == Together(b.guards) && a.body == b.body
  }

  /** Every chain shares its path with one that nothing takes it from afterwards. */
  ghost predicate NoneIsLost(repo: Repository, jobs: seq<Entry>, inputs: Option<Values>) {
    forall chain | Leads(repo, jobs, inputs, chain) ::
      exists other :: Leads(repo, jobs, inputs, other) && Path(other) == Path(chain) && !Shadowed(repo, jobs, other)
  }

  /**
   * Every chain's job stands in the expansion if and only if no two chains with one path lead to
   * different things and no path is taken by a later job that is not a mapping.
   */
  lemma ChainsKeepTheirJobsExactlyWhen(repo: Repository, jobs: seq<Entry>, seen: set<nat>, inputs: Option<Values>)
    requires KeyedRepository(repo) && Keyed(jobs)
    requires Expand(repo, jobs, seen, inputs).Ok?
    ensures
      (forall chain | Leads(repo, jobs, inputs, chain) ::
         StandsFor(Expand(repo, jobs, seen, inputs).value, Path(chain), LeafOf(repo, jobs, inputs, chain)))
      <==> Unambiguous(repo, jobs, inputs) && NoneIsLost(repo, jobs, inputs)
  {
    hide *;
    if Unambiguous(repo, jobs, inputs) && NoneIsLost(repo, jobs, inputs) {
      forall chain | Leads(repo, jobs, inputs, chain) {
        AChainKeepsItsJob(repo, jobs, seen, inputs, chain);
      }
    }
    if forall chain | Leads(repo, jobs, inputs, chain) ::
         StandsFor(Expand(repo, jobs, seen, inputs).value, Path(chain), LeafOf(repo, jobs, inputs, chain))
    {
      StandingJobsAgree(repo, jobs, inputs, Expand(repo, jobs, seen, inputs).value);
      StandingChainsAreNotLost(repo, jobs, seen, inputs);
    }
  }

  lemma AChainKeepsItsJob(repo: Repository, jobs: seq<Entry>, seen: set<nat>, inputs: Option<Values>,
                          chain: seq<string>)
    requires KeyedRepository(repo) && Keyed(jobs) && Expand(repo, jobs, seen, inputs).Ok?
    requires Unambiguous(repo, jobs, inputs) && NoneIsLost(repo, jobs, inputs) && Leads(repo, jobs, inputs, chain)
    ensures StandsFor(Expand(repo, jobs, seen, inputs).value, Path(chain), LeafOf(repo, jobs, inputs, chain))
  {
    hide Expand, Follow, Path, Together, Shadowed, Leads, LeafOf, KeyedRepository, Keyed;
    var other :| Leads(repo, jobs, inputs, other) && Path(other) == Path(chain) && !Shadowed(repo, jobs, other);
    AnUnshadowedPathHasSteps(repo, jobs, seen, inputs, other);
    var stands := EveryJobStandsForAnUnshadowedChain(repo, jobs, seen, inputs, Path(chain));
  }

  lemma StandingJobsAgree(repo: Repository, jobs: seq<Entry>, inputs: Option<Values>, all: Jobs)
    requires forall chain | Leads(repo, jobs, inputs, chain) ::
               StandsFor(all, Path(chain), LeafOf(repo, jobs, inputs, chain))
    ensures Unambiguous(repo, jobs, inputs)
  {
    hide Follow, Path, Together, Leads, LeafOf;
  }

  lemma StandingChainsAreNotLost(repo: Repository, jobs: seq<Entry>, seen: set<nat>, inputs: Option<Values>)
    requires KeyedRepository(repo) && Keyed(jobs) && Expand(repo, jobs, seen, inputs).Ok?
    requires forall chain | Leads(repo, jobs, inputs, chain) ::
               StandsFor(Expand(repo, jobs, seen, inputs).value, Path(chain), LeafOf(repo, jobs, inputs, chain))
    ensures NoneIsLost(repo, jobs, inputs)
  {
    hide Expand, Follow, Path, Together, Shadowed, Leads, LeafOf, KeyedRepository, Keyed;
    forall chain | Leads(repo, jobs, inputs, chain)
      ensures exists other ::
                Leads(repo, jobs, inputs, other) && Path(other) == Path(chain) && !Shadowed(repo, jobs, other)
    {
      var stands := EveryJobStandsForAnUnshadowedChain(repo, jobs, seen, inputs, Path(chain));
    }
  }

  /** Where every job is a mapping nothing is taken, and the condition is that paths are unambiguous. */
  lemma MappingsTakeNoPath(repo: Repository, jobs: seq<Entry>, inputs: Option<Values>)
    requires forall i | 0 <= i < |jobs| :: !jobs[i].job.NotAMapping?
    requires forall path | path in repo && repo[path].Workflow? ::
               forall i | 0 <= i < |repo[path].jobs| :: !repo[path].jobs[i].job.NotAMapping?
    ensures NoneIsLost(repo, jobs, inputs)
  {
    hide Follow, Path, Leads;
    forall chain ensures !Shadowed(repo, jobs, chain) {
      MappingsShadowNothing(repo, jobs, chain);
    }
  }

  lemma {:induction false} MappingsShadowNothing(repo: Repository, jobs: seq<Entry>, chain: seq<string>)
    requires forall i | 0 <= i < |jobs| :: !jobs[i].job.NotAMapping?
    requires forall path | path in repo && repo[path].Workflow? ::
               forall i | 0 <= i < |repo[path].jobs| :: !repo[path].jobs[i].job.NotAMapping?
    ensures !Shadowed(repo, jobs, chain)
    decreases |chain|
  {
    if chain != [] {
      match Named(jobs, chain[0])
      case Some(Call(_, File(path), given, _)) =>
        if ReadCall(repo, path, given).Ok? {
          FilledJobsAreMappings(repo[path].jobs, repo[path].inputs + given);
          MappingsShadowNothing(repo, ReadCall(repo, path, given).value, chain[1..]);
        }
      case _ =>
    }
  }

  lemma {:induction false} FilledJobsAreMappings(jobs: seq<Entry>, values: Values)
    requires FillJobs(jobs, values).Ok? && forall i | 0 <= i < |jobs| :: !jobs[i].job.NotAMapping?
    ensures
      var filled := FillJobs(jobs, values).value;
      forall i | 0 <= i < |filled| :: !filled[i].job.NotAMapping?
  {
    if jobs != [] {
      FilledJobsAreMappings(jobs[1..], values);
      assert !jobs[0].job.NotAMapping?;
    }
  }

  // A chain of jobs each of which calls a workflow that can be read.
  predicate Descends(repo: Repository, jobs: seq<Entry>, chain: seq<string>)
    decreases |chain|
  {
    chain == []
    || match Named(jobs, chain[0])
       case Some(Call(_, File(path), given, _)) =>
         var called := ReadCall(repo, path, given);
         called.Ok? && Descends(repo, called.value, chain[1..])
       case _ => false
  }

  lemma CalledFileIsThere(repo: Repository, path: nat, given: Values)
    requires ReadCall(repo, path, given).Ok?
    ensures path in repo
  {
  }

  /**
   * Where inlining succeeds, no chain of calls is longer than the files not yet being read: a
   * workflow that calls itself, however far down, is refused.
   */
  lemma {:induction false} CallsNeverReturn(repo: Repository, jobs: seq<Entry>, seen: set<nat>, inputs: Option<Values>,
                                            chain: seq<string>)
    requires Expand(repo, jobs, seen, inputs).Ok? && Descends(repo, jobs, chain)
    ensures |chain| <= |repo.Keys - seen|
    decreases |chain|
  {
    if chain != [] {
      NamedIsAt(jobs, chain[0]);
      var job := Named(jobs, chain[0]).value;
      var i :| 0 <= i < |jobs| && jobs[i] == Entry(chain[0], job);
      EveryContributionIsOk(repo, jobs, seen, inputs, i);
      var path := job.target.path;
      hide Expand, ReadCall;
      assert path in repo by { CalledFileIsThere(repo, path, job.given); }
      SeenGrows(repo, seen, path);
      CallsNeverReturn(repo, ReadCall(repo, path, job.given).value, seen + {path}, None, chain[1..]);
    }
  }

  // ---- what the joined guards say ----

  /** A chain's joined guard holds each of its guards whole, and is missing only when all are. */
  lemma {:induction false} EveryGuardIsCarried(guards: seq<Option<Guard>>, i: nat)
    requires i < |guards|
    ensures guards[i].Some? ==>
              exists before, after :: Together(guards) == Some(before + guards[i].value + after)
    ensures Together(guards).None? <==> forall k | 0 <= k < |guards| :: guards[k].None?
    decreases |guards|
  {
    if |guards| == 1 {
      if guards[0].Some? { assert guards[0].value == [] + guards[0].value + []; }
    } else {
      var outer, inner := guards[0], Together(guards[1..]);
      EveryGuardIsCarried(guards[1..], if i > 0 then i - 1 else 0);
      var open := [Tok(C.Op(C.Open))];
      var middle := [Tok(C.Op(C.Close)), Tok(C.Op(C.AndOp)), Tok(C.Op(C.Open))];
      var close := [Tok(C.Op(C.Close))];
      if guards[i].Some? && i == 0 {
        if inner.Some? {
          assert Together(guards).value == open + outer.value + (middle + inner.value + close);
        } else {
          assert outer.value == [] + outer.value + [];
        }
      } else if guards[i].Some? {
        var before, after :| inner == Some(before + guards[1..][i - 1].value + after);
        if outer.Some? {
          assert Together(guards).value == (open + outer.value + middle + before) + guards[i].value + (after + close);
        }
      }
      assert guards[1..][0] == guards[1];
      assert forall k | 1 <= k < |guards| :: guards[k] == guards[1..][k - 1];
    }
  }

  lemma JoinedGuardsAreJoinedTokens(caller: C.Tokens, called: C.Tokens)
    ensures Combine(Some(Written(caller)), Some(Written(called))) == Some(Written(G.Combined(caller, called)))
  {
    var joined := G.Combined(caller, called);
    assert joined == [C.Op(C.Open)] + caller + [C.Op(C.Close), C.Op(C.AndOp), C.Op(C.Open)] + called + [C.Op(C.Close)];
    assert Combine(Some(Written(caller)), Some(Written(called))).value == Written(joined);
  }

  // Guards as a workflow writes them, one for each level of a chain of calls.
  function AsWritten(texts: seq<C.Tokens>): (guards: seq<Option<Guard>>)
    ensures |guards| == |texts| && forall i | 0 <= i < |texts| :: guards[i] == Some(Written(texts[i]))
  {
    seq(|texts|, i requires 0 <= i < |texts| => Some(Written(texts[i])))
  }

  /** Inlining joins a chain's guards as a nested chain of tokens. */
  lemma {:induction false} TogetherIsTheChain(texts: seq<C.Tokens>)
    requires texts != []
    ensures Together(AsWritten(texts)) == Some(Written(G.Chain(texts)))
    decreases |texts|
  {
    if |texts| > 1 {
      assert AsWritten(texts)[1..] == AsWritten(texts[1..]);
      TogetherIsTheChain(texts[1..]);
      JoinedGuardsAreJoinedTokens(texts[0], G.Chain(texts[1..]));
    }
  }

  /**
   * A guarded job behind any number of guarded calls can be decided if and only if the parentheses
   * left around its guards are balanced and the reader has room; then it is decided as all of its
   * guards are, unless one is loose.
   */
  lemma AnInlinedJobMeansAllItsGuards(texts: seq<C.Tokens>, es: seq<P.Expr>, ctx: C.Context, platform: C.Platform)
    requires |texts| >= 2 && G.AreTextsOf(texts, es)
    ensures Together(AsWritten(texts)) == Some(Written(G.Chain(texts)))
    ensures
      var read := C.Evaluate(G.Chain(texts), ctx, platform);
      && (read.Ok? <==> H.Balanced(G.Places(es), 0) && H.Deepest(G.Places(es), 0) <= C.MAX_DEPTH)
      && (read.Ok? && M.NoneLoose(es) ==> read.value.value == M.Meaning(es, ctx, platform))
  {
    TogetherIsTheChain(texts);
    H.AChainIsReadExactlyWhen(texts, es, ctx, platform);
    hide C.Evaluate, G.Chain, H.Deepest, M.Meaning, M.NoneLoose, Together, AsWritten;
    if C.Evaluate(G.Chain(texts), ctx, platform).Ok? && M.NoneLoose(es) {
      M.AChainMeansAllItsGuards(texts, es, ctx, platform);
    }
  }

  // ---- inlining as it runs ----

  method ExpandCalls(repo: Repository, jobs: seq<Entry>, seen: set<nat>, inputs: Option<Values>)
    returns (result: Result<Jobs, CallError>)
    ensures result == Expand(repo, jobs, seen, inputs)
    decreases |repo.Keys - seen|, 1
  {
    var expanded: Jobs := map[];
    assert jobs[..0] == [];
    for k := 0 to |jobs|
      invariant Expand(repo, jobs[..k], seen, inputs) == Ok(expanded)
    {
      FirstErrorStays(repo, jobs, seen, inputs, k);
      var own := ExpandJob(repo, jobs[k], seen, inputs);
      if own.Err? {
        return own;
      }
      expanded := expanded + own.value;
    }
    assert jobs[..|jobs|] == jobs;
    return Ok(expanded);
  }

  /** `Contribution`, step by step. */
  method ExpandJob(repo: Repository, entry: Entry, seen: set<nat>, inputs: Option<Values>)
    returns (own: Result<Jobs, CallError>)
    ensures own == Contribution(repo, entry, seen, inputs)
    decreases |repo.Keys - seen|, 0
  {
    var id, job := entry.id, entry.job;
    if !job.Call? {
      return Ok(map[id := job]);
    }
    var callee := Callee(job, seen);
    if callee.Err? {
      return Err(callee.error);
    }
    var called := ReadCall(repo, callee.value, job.given);
    if called.Err? {
      return Err(called.error);
    }
    SeenGrows(repo, seen, callee.value);
    var inner := ExpandCalls(repo, called.value, seen + {callee.value}, None);
    if inner.Err? {
      return inner;
    }
    if !HasMapping(inner.value) {
      return Ok(Inlined(id, None, map[]));
    }
    var guard := CallerGuard(job, inputs);
    if guard.Err? {
      return Err(guard.error);
    }
    return Ok(Inlined(id, guard.value, inner.value));
  }

  // The jobs are read in order, and the first that is refused refuses the workflow.
  lemma {:induction false} FirstErrorStays(repo: Repository, jobs: seq<Entry>, seen: set<nat>, inputs: Option<Values>,
                                           k: nat)
    requires k < |jobs| && Expand(repo, jobs[..k], seen, inputs).Ok?
    ensures
      match Contribution(repo, jobs[k], seen, inputs)
      case Err(e) => Expand(repo, jobs, seen, inputs) == Err(e)
      case Ok(own) =>
        Expand(repo, jobs[..k + 1], seen, inputs) == Ok(Expand(repo, jobs[..k], seen, inputs).value + own)
    decreases |jobs|
  {
    assert jobs[..k + 1][..k] == jobs[..k];
    hide Contribution;
    if k < |jobs| - 1 {
      assert jobs[..|jobs| - 1][..k] == jobs[..k];
      FirstErrorStays(repo, jobs[..|jobs| - 1], seen, inputs, k);
    }
  }
}
