/** Which pending run a device is handed, without letting one repository fill the pool. */
module Scheduling {
  import opened Prelude
  import opened JobRecord

  type Table = map<JobId, Job>

  /** The repository's running rows. */
  function RunningIn(jobs: Table, repository: string): set<JobId> {
    set id | id in jobs && jobs[id].status == Running && jobs[id].repository == repository
  }

  function Load(jobs: Table, id: JobId): nat
    requires id in jobs
  {
    |RunningIn(jobs, jobs[id].repository)|
  }

  /** Due, matched by the device's labels, and under the repository's cap when there is one. */
  predicate Eligible(jobs: Table, id: JobId, labels: set<string>, now: real, cap: Option<nat>) {
    && id in jobs
    && jobs[id].status == Pending
    && (jobs[id].availableAt.None? || jobs[id].availableAt.value <= now)
    && jobs[id].labels <= labels
    && (cap.None? || Load(jobs, id) < cap.value)
  }

  function EligibleJobs(jobs: Table, labels: set<string>, now: real, cap: Option<nat>): set<JobId> {
    set id | id in jobs && Eligible(jobs, id, labels, now, cap)
  }

  /** The least loaded repository first, then the oldest run, then the smaller id. */
  predicate NoLaterThan(jobs: Table, a: JobId, b: JobId)
    requires a in jobs && b in jobs
  {
    || Load(jobs, a) < Load(jobs, b)
    || (Load(jobs, a) == Load(jobs, b) && jobs[a].createdAt < jobs[b].createdAt)
    || (Load(jobs, a) == Load(jobs, b) && jobs[a].createdAt == jobs[b].createdAt && a <= b)
  }

  predicate IsFirst(jobs: Table, candidates: set<JobId>, id: JobId)
    requires candidates <= jobs.Keys
  {
    id in candidates && forall other | other in candidates :: NoLaterThan(jobs, id, other)
  }

  /** Every nonempty set of candidates has exactly one first run. */
  lemma {:induction false} FirstExists(jobs: Table, candidates: set<JobId>)
    requires candidates <= jobs.Keys && candidates != {}
    ensures exists id :: IsFirst(jobs, candidates, id)
    ensures forall a, b | IsFirst(jobs, candidates, a) && IsFirst(jobs, candidates, b) :: a == b
    decreases candidates
  {
    var some :| some in candidates;
    var rest := candidates - {some};
    if rest == {} {
      assert candidates == {some};
      assert IsFirst(jobs, candidates, some);
    } else {
      FirstExists(jobs, rest);
      var best :| IsFirst(jobs, rest, best);
      var winner := if NoLaterThan(jobs, best, some) then best else some;
      forall other | other in candidates ensures NoLaterThan(jobs, winner, other) {
        if other != some {
          assert NoLaterThan(jobs, best, other);
        }
      }
      assert IsFirst(jobs, candidates, winner);
    }
  }

  /** The run a claim picks, when any is eligible. */
  ghost function Pick(jobs: Table, labels: set<string>, now: real, cap: Option<nat>): (picked: Option<JobId>)
    ensures picked.None? <==> forall id :: !Eligible(jobs, id, labels, now, cap)
    ensures picked.Some? ==> IsFirst(jobs, EligibleJobs(jobs, labels, now, cap), picked.value)
  {
    var candidates := EligibleJobs(jobs, labels, now, cap);
    assert forall id :: id in candidates <==> Eligible(jobs, id, labels, now, cap);
    if candidates == {} then None
    else
      FirstExists(jobs, candidates);
      var id :| IsFirst(jobs, candidates, id);
      Some(id)
  }

  /** Whatever is true of a claim, its pick belongs to a repository no eligible repository undercuts. */
  lemma PickIsFair(jobs: Table, labels: set<string>, now: real, cap: Option<nat>, other: JobId)
    requires Eligible(jobs, other, labels, now, cap)
    ensures
      var picked := Pick(jobs, labels, now, cap);
      && picked.Some?
      && Load(jobs, picked.value) <= Load(jobs, other)
      && (Load(jobs, picked.value) == Load(jobs, other) ==>
            jobs[picked.value].createdAt <= jobs[other].createdAt)
  {
    var picked := Pick(jobs, labels, now, cap);
    assert other in EligibleJobs(jobs, labels, now, cap);
    assert NoLaterThan(jobs, picked.value, other);
  }
}
