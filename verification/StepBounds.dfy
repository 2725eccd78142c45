/** The step records of a run, cut to what a report may carry, and validated when they arrive. */
module StepBounds {
  import opened Prelude

  const MAX_STEP_CHARS: nat := 16384
  const MAX_STEP_NAME_CHARS: nat := 500
  const MAX_STEPS: nat := 64
  const MAX_TOTAL_CHARS: nat := 65536

  datatype Step = Step(index: int, name: string, output: string, completed: bool, truncated: bool, dropped: nat)

  function Size(s: Step): nat {
    |s.output| + |s.name|
  }

  function Total(steps: seq<Step>): nat {
    if steps == [] then 0 else Size(steps[0]) + Total(steps[1..])
  }

  lemma {:induction false} TotalConcat(a: seq<Step>, b: seq<Step>)
    ensures Total(a + b) == Total(a) + Total(b)
  {
    if a == [] {
      assert a + b == b;
    } else {
      assert (a + b)[1..] == a[1..] + b;
      TotalConcat(a[1..], b);
    }
  }

  // ---- the bound applied where a report is built ----

  function ShortName(s: Step): Step {
    if |s.name| <= MAX_STEP_NAME_CHARS then s
    else s.(name := s.name[..MAX_STEP_NAME_CHARS], truncated := true)
  }

  function ShortNames(steps: seq<Step>): (short: seq<Step>)
    ensures |short| == |steps|
    ensures forall i | 0 <= i < |steps| :: short[i] == ShortName(steps[i])
  {
    seq(|steps|, i requires 0 <= i < |steps| => ShortName(steps[i]))
  }

  /** At most 64 steps, the last of them always the run's last. */
  function CountBound(steps: seq<Step>): seq<Step> {
    if |steps| <= MAX_STEPS then steps else steps[..MAX_STEPS - 1] + [steps[|steps| - 1]]
  }

  /** How many leading steps fit beside what is already spent. */
  function Fitting(steps: seq<Step>, spent: nat): (n: nat)
    ensures n <= |steps|
  {
    if steps == [] || spent + Size(steps[0]) > MAX_TOTAL_CHARS then 0
    else 1 + Fitting(steps[1..], spent + Size(steps[0]))
  }

  function AlsoDropped(s: Step, lost: nat): Step {
    s.(dropped := s.dropped + lost)
  }

  /** How many leading steps are kept beside the last. */
  function EarlyOf(steps: seq<Step>): (n: nat)
    requires steps != []
    ensures n < |steps|
  {
    if |steps| == 1 || Total(steps) <= MAX_TOTAL_CHARS then |steps| - 1
    else Fitting(steps[..|steps| - 1], Size(steps[|steps| - 1]))
  }

  /** The last step as it is kept: cut once more when earlier ones were left out for their size. */
  function FinalOf(steps: seq<Step>): Step
    requires steps != []
  {
    var final := steps[|steps| - 1];
    if |steps| == 1 || Total(steps) <= MAX_TOTAL_CHARS then final else Shortened(final)
  }

  /** The steps a report carries: a leading part and the last step, which says how many are missing. */
  function Trim(all: seq<Step>): seq<Step> {
    var steps := CountBound(ShortNames(all));
    if steps == [] then []
    else steps[..EarlyOf(steps)] + [AlsoDropped(FinalOf(steps), |all| - EarlyOf(steps) - 1)]
  }

  function Shortened(s: Step): Step {
    s.(output := Take(s.output, MAX_STEP_CHARS), truncated := s.truncated || |s.output| > MAX_STEP_CHARS)
  }

  /** A set of records a report may carry. */
  ghost predicate Bounded(steps: seq<Step>) {
    && |steps| <= 64
    && Total(steps) <= 65536
    && forall i | 0 <= i < |steps| :: |steps[i].name| <= 500 && |steps[i].output| <= 16384
  }

  lemma {:induction false} FittingFits(steps: seq<Step>, spent: nat)
    requires spent <= MAX_TOTAL_CHARS
    ensures spent + Total(steps[..Fitting(steps, spent)]) <= MAX_TOTAL_CHARS
    ensures Fitting(steps, spent) < |steps| ==>
              spent + Total(steps[..Fitting(steps, spent) + 1]) > MAX_TOTAL_CHARS
  {
    var n := Fitting(steps, spent);
    if n > 0 {
      FittingFits(steps[1..], spent + Size(steps[0]));
      assert steps[..n][1..] == steps[1..][..n - 1];
      if n < |steps| {
        assert steps[..n + 1][1..] == steps[1..][..n];
      }
    } else if steps != [] {
      assert steps[..1] == [steps[0]];
      assert Total(steps[..1]) == Size(steps[0]) + Total(steps[..1][1..]);
    }
  }

  lemma TotalWith(steps: seq<Step>, s: Step)
    ensures Total(steps + [s]) == Total(steps) + Size(s)
  {
    TotalConcat(steps, [s]);
  }

  /** How many leading steps the trimmed set keeps. */
  function Early(all: seq<Step>): (n: nat)
    requires all != []
    ensures n < |CountBound(ShortNames(all))|
  {
    EarlyOf(CountBound(ShortNames(all)))
  }

  // A leading part of the shortened steps, and the last one counting those in between.
  ghost predicate KeepsEnds(all: seq<Step>, kept: seq<Step>, n: nat) {
    && n < |all|
    && kept == ShortNames(all)[..n] + [AlsoDropped(ShortName(all[|all| - 1]), |all| - n - 1)]
  }

  // Outputs as a parsed run's are, each cut to its length.
  ghost predicate SmallOutputs(all: seq<Step>) {
    forall i | 0 <= i < |all| :: |all[i].output| <= MAX_STEP_CHARS
  }

  /** The count bound keeps the last step behind a leading part of the others. */
  lemma CountBoundShape(short: seq<Step>)
    requires short != []
    ensures
      var steps := CountBound(short);
      && 0 < |steps| <= MAX_STEPS && |steps| <= |short| && (|steps| < |short| ==> |steps| == MAX_STEPS)
      && steps == short[..|steps| - 1] + [short[|short| - 1]]
  {
  }

  lemma ShortLast(all: seq<Step>)
    requires all != [] && SmallOutputs(all)
    ensures ShortNames(all)[|all| - 1] == ShortName(all[|all| - 1])
    ensures Shortened(ShortName(all[|all| - 1])) == ShortName(all[|all| - 1])
  {
  }

  lemma SameFront(steps: seq<Step>, short: seq<Step>, m: nat, n: nat, last: Step, x: Step)
    requires n <= m <= |short| && steps == short[..m] + [last]
    ensures steps[..n] + [x] == short[..n] + [x]
  {
    assert steps[..n] == short[..n];
  }

  lemma TrimsLast(all: seq<Step>)
    requires all != [] && SmallOutputs(all)
    ensures FinalOf(CountBound(ShortNames(all))) == ShortName(all[|all| - 1])
  {
    CountBoundShape(ShortNames(all));
    ShortLast(all);
    hide ShortNames, CountBound, ShortName, Shortened, SmallOutputs, Total;
  }

  lemma TrimUnfolds(all: seq<Step>)
    requires all != []
    ensures
      var steps, n := CountBound(ShortNames(all)), Early(all);
      && n < |steps| <= |all|
      && Trim(all) == steps[..n] + [AlsoDropped(FinalOf(steps), |all| - n - 1)]
      && steps == ShortNames(all)[..|steps| - 1] + [ShortNames(all)[|all| - 1]]
  {
    CountBoundShape(ShortNames(all));
    hide ShortNames, CountBound, FinalOf, EarlyOf, AlsoDropped;
  }

  lemma EndsAreKept(all: seq<Step>, kept: seq<Step>, n: nat)
    requires n < |all|
    requires kept == ShortNames(all)[..n] + [AlsoDropped(ShortName(all[|all| - 1]), |all| - n - 1)]
    ensures KeepsEnds(all, kept, n)
  {
  }

  lemma TrimShape(all: seq<Step>)
    requires all != []
    requires SmallOutputs(all)
    ensures KeepsEnds(all, Trim(all), Early(all))
  {
    TrimUnfolds(all);
    TrimsLast(all);
    hide *;
    var short := ShortNames(all);
    var steps, n := CountBound(short), Early(all);
    var final := AlsoDropped(FinalOf(steps), |all| - n - 1);
    SameFront(steps, short, |steps| - 1, n, short[|all| - 1], final);
    EndsAreKept(all, Trim(all), n);
  }

  lemma FitsWith(early: seq<Step>, final: Step)
    requires Size(final) <= MAX_TOTAL_CHARS
    ensures
      var n := if Total(early + [final]) <= MAX_TOTAL_CHARS then |early| else Fitting(early, Size(final));
      && Total(early[..n]) + Size(final) <= MAX_TOTAL_CHARS
      && (n < |early| ==> Total(early[..n]) + Size(early[n]) + Size(final) > MAX_TOTAL_CHARS)
  {
    TotalWith(early, final);
    assert early[..|early|] == early;
    FittingIsTight(early, Size(final));
    hide Total, Fitting, Size;
  }

  lemma FittingIsTight(steps: seq<Step>, spent: nat)
    requires spent <= MAX_TOTAL_CHARS
    ensures
      var n := Fitting(steps, spent);
      && Total(steps[..n]) + spent <= MAX_TOTAL_CHARS
      && (n < |steps| ==> Total(steps[..n]) + Size(steps[n]) + spent > MAX_TOTAL_CHARS)
  {
    FittingFits(steps, spent);
    var n := Fitting(steps, spent);
    hide Total, Fitting, Size;
    if n < |steps| {
      assert steps[..n + 1] == steps[..n] + [steps[n]];
      TotalWith(steps[..n], steps[n]);
    }
  }

  lemma TrimFits(all: seq<Step>)
    requires all != []
    requires SmallOutputs(all)
    ensures
      var n, short := Early(all), ShortNames(all);
      && n < |all|
      && Total(short[..n]) + Size(short[|all| - 1]) <= MAX_TOTAL_CHARS
      && (n + 1 < |all| && n + 1 < MAX_STEPS ==>
            Total(short[..n]) + Size(short[n]) + Size(short[|all| - 1]) > MAX_TOTAL_CHARS)
  {
    var short := ShortNames(all);
    var m, final := |CountBound(short)| - 1, short[|all| - 1];
    CountBoundShape(short);
    FinalIsSmall(all);
    EarlyFits(all, short[..m], final);
    assert |short| == |all|;
    hide *;
    FitsAtThatPlace(short, m, Early(all), final);
  }

  lemma FitsAtThatPlace(short: seq<Step>, m: nat, n: nat, final: Step)
    requires n <= m < |short| && Total(short[..m][..n]) + Size(final) <= MAX_TOTAL_CHARS
    requires n < m ==> Total(short[..m][..n]) + Size(short[..m][n]) + Size(final) > MAX_TOTAL_CHARS
    ensures Total(short[..n]) + Size(final) <= MAX_TOTAL_CHARS
    ensures n < m ==> Total(short[..n]) + Size(short[n]) + Size(final) > MAX_TOTAL_CHARS
  {
    hide *;
    assert short[..m][..n] == short[..n];
  }

  lemma EarlyFits(all: seq<Step>, early: seq<Step>, final: Step)
    requires all != [] && CountBound(ShortNames(all)) == early + [final] && Size(final) <= MAX_TOTAL_CHARS
    ensures
      var n := Early(all);
      && n <= |early|
      && Total(early[..n]) + Size(final) <= MAX_TOTAL_CHARS
      && (n < |early| ==> Total(early[..n]) + Size(early[n]) + Size(final) > MAX_TOTAL_CHARS)
  {
    var steps := CountBound(ShortNames(all));
    assert steps[..|steps| - 1] == early && steps[|steps| - 1] == final;
    FitsWith(early, final);
    TotalWith(early, final);
    if early == [] { NoStepsNoSize(); }
    hide Total, Fitting, Size, ShortNames, CountBound;
  }

  lemma FinalIsSmall(all: seq<Step>)
    requires all != [] && SmallOutputs(all)
    ensures Size(ShortNames(all)[|all| - 1]) <= MAX_TOTAL_CHARS
  {
  }

  lemma NoStepsNoSize()
    ensures Total([]) == 0
  {
  }

  lemma KeptStepsAreTheEnds(all: seq<Step>, kept: seq<Step>, n: nat)
    requires KeepsEnds(all, kept, n)
    ensures |kept| == n + 1 && kept[..n] == ShortNames(all)[..n]
    ensures kept[n] == AlsoDropped(ShortName(all[|all| - 1]), |all| - n - 1)
    ensures forall i | 0 <= i < n :: kept[i] == ShortName(all[i])
  {
    var short := ShortNames(all);
    hide ShortNames, ShortName, AlsoDropped;
    assert kept[..n] == short[..n];
  }

  lemma KeptStepsCountAll(all: seq<Step>, kept: seq<Step>, n: nat)
    requires KeepsEnds(all, kept, n)
    ensures
      var last := all[|all| - 1];
      && |kept| == n + 1
      && kept[n] == ShortName(last).(dropped := kept[n].dropped)
      && |kept| + kept[n].dropped == |all| + last.dropped
  {
    KeptStepsAreTheEnds(all, kept, n);
    ShorteningDropsNothing(all[|all| - 1]);
    hide ShortName, ShortNames, KeepsEnds;
  }

  lemma ShorteningDropsNothing(s: Step)
    ensures ShortName(s).dropped == s.dropped
    ensures |s.output| <= MAX_STEP_CHARS ==> |ShortName(s).output| <= MAX_STEP_CHARS
    ensures |ShortName(s).name| <= MAX_STEP_NAME_CHARS
  {
  }

  lemma KeptStepsAreBounded(all: seq<Step>, kept: seq<Step>, n: nat)
    requires KeepsEnds(all, kept, n) && n < MAX_STEPS
    requires SmallOutputs(all)
    requires Total(ShortNames(all)[..n]) + Size(ShortNames(all)[|all| - 1]) <= MAX_TOTAL_CHARS
    ensures Bounded(kept)
    ensures Total(kept) == Total(ShortNames(all)[..n]) + Size(ShortNames(all)[|all| - 1])
  {
    KeptStepsAreTheEnds(all, kept, n);
    forall i | 0 <= i < |all| { ShorteningDropsNothing(all[i]); }
    TotalWith(ShortNames(all)[..n], kept[n]);
    hide ShortName, ShortNames, KeepsEnds, SmallOutputs, Total;
    assert kept == kept[..n] + [kept[n]];
  }

  lemma TrimIsBounded(all: seq<Step>)
    requires all != [] && SmallOutputs(all)
    ensures Bounded(Trim(all)) && 0 < |Trim(all)| <= |all|
  {
    TrimShape(all);
    TrimFits(all);
    EarlyIsFew(all);
    hide *;
    KeptStepsAreTheEnds(all, Trim(all), Early(all));
    KeptStepsAreBounded(all, Trim(all), Early(all));
  }

  lemma TrimKeepsTheEnds(all: seq<Step>)
    requires all != [] && SmallOutputs(all)
    ensures
      var kept := Trim(all);
      var n, last := |kept| - 1, all[|all| - 1];
      && 0 <= n < |all|
      && kept[n] == ShortName(last).(dropped := kept[n].dropped)
      && |kept| + kept[n].dropped == |all| + last.dropped
      && (forall i | 0 <= i < n :: kept[i] == ShortName(all[i]))
  {
    TrimShape(all);
    hide *;
    KeptStepsAreTheEnds(all, Trim(all), Early(all));
    KeptStepsCountAll(all, Trim(all), Early(all));
  }

  lemma TrimLeavesNoRoom(all: seq<Step>)
    requires all != [] && SmallOutputs(all)
    requires |Trim(all)| < |all| && 0 < |Trim(all)| < MAX_STEPS
    ensures Total(Trim(all)) + Size(ShortName(all[|Trim(all)| - 1])) > MAX_TOTAL_CHARS
  {
    TrimShape(all);
    TrimFits(all);
    EarlyIsFew(all);
    hide *;
    assert ShortNames(all)[|Trim(all)| - 1] == ShortName(all[|Trim(all)| - 1]);
    KeptStepsAreTheEnds(all, Trim(all), Early(all));
    KeptStepsAreBounded(all, Trim(all), Early(all));
  }

  /**
   * The trimmed set of a parsed run is bounded, keeps the run's last step, keeps a leading part of
   * the others in order, and counts exactly the steps it lost; a step left out for its size would
   * not have fit.
   */
  lemma TrimmingConserves(all: seq<Step>)
    requires all != []
    requires forall i | 0 <= i < |all| :: |all[i].output| <= MAX_STEP_CHARS
    ensures
      var kept := Trim(all);
      var n, last := |kept| - 1, all[|all| - 1];
      && Bounded(kept) && 0 < |kept| <= |all|
      && kept[n] == ShortName(last).(dropped := kept[n].dropped)
      && |kept| + kept[n].dropped == |all| + last.dropped
      && (forall i | 0 <= i < n :: kept[i] == ShortName(all[i]))
      && (|kept| < |all| && |kept| < MAX_STEPS ==>
            Total(kept) + Size(ShortName(all[n])) > MAX_TOTAL_CHARS)
  {
    assert SmallOutputs(all);
    hide *;
    TrimIsBounded(all);
    TrimKeepsTheEnds(all);
    if |Trim(all)| < |all| && |Trim(all)| < MAX_STEPS { TrimLeavesNoRoom(all); }
  }

  lemma EarlyIsFew(all: seq<Step>)
    requires all != []
    ensures Early(all) < MAX_STEPS
  {
    CountBoundShape(ShortNames(all));
  }

  /** The bound as it is applied: short names, the count, then the size, filled from the front. */
  method WithinBudget(all: seq<Step>) returns (kept: seq<Step>)
    ensures kept == Trim(all)
  {
    hide Total, Fitting;
    var steps := ShortNames(all);
    var dropped := 0;
    if |steps| > MAX_STEPS {
      dropped := |steps| - MAX_STEPS;
      steps := steps[..MAX_STEPS - 1] + [steps[|steps| - 1]];
    }
    assert steps == CountBound(ShortNames(all));
    if |steps| <= 1 {
      return steps;
    }
    var early, final := steps[..|steps| - 1], steps[|steps| - 1];
    var total := SumOf(steps);
    if total <= MAX_TOTAL_CHARS {
      if dropped == 0 {
        assert steps == early + [AlsoDropped(final, 0)];
        return steps;
      }
      return early + [AlsoDropped(final, dropped)];
    }
    kept := Fill(early, Size(final));
    dropped := dropped + |early| - |kept|;
    kept := kept + [AlsoDropped(Shortened(final), dropped)];
  }

  method Fill(early: seq<Step>, reserved: nat) returns (kept: seq<Step>)
    ensures kept == early[..Fitting(early, reserved)]
  {
    kept := [];
    var spent: nat := reserved;
    var k := 0;
    while k < |early|
      invariant k <= |early| && kept == early[..k]
      invariant Fitting(early, reserved) == k + Fitting(early[k..], spent)
    {
      var cost := Size(early[k]);
      if spent + cost > MAX_TOTAL_CHARS {
        break;
      }
      spent := spent + cost;
      kept := kept + [early[k]];
      k := k + 1;
    }
  }

  method SumOf(steps: seq<Step>) returns (total: nat)
    ensures total == Total(steps)
  {
    total := 0;
    for k := 0 to |steps|
      invariant total == Total(steps[..k])
    {
      assert steps[..k + 1] == steps[..k] + [steps[k]];
      TotalConcat(steps[..k], [steps[k]]);
      assert Total([steps[k]]) == Size(steps[k]);
      total := total + Size(steps[k]);
    }
    assert steps[..|steps|] == steps;
  }

  // ---- what the cuts leave alone ----

  /** A name is cut to 500 characters and marked exactly when it is longer. */
  lemma AShortNameIsMarked(s: Step)
    ensures ShortName(s) == if |s.name| > 500 then s.(name := s.name[..500], truncated := true) else s
  {
  }

  /** A bounded set is carried as it is. */
  lemma TrimLeavesABoundedSetAlone(all: seq<Step>)
    requires Bounded(all)
    ensures Trim(all) == all
  {
    if all != [] {
      var short := ShortNames(all);
      forall i | 0 <= i < |all| { AShortNameIsMarked(all[i]); }
      assert short == all;
      var n := |all| - 1;
      assert all == all[..n] + [all[n]];
      hide ShortName, Total;
      assert FinalOf(all) == all[n] && EarlyOf(all) == n;
    }
  }

  /**
   * The last record of a set too large for a report is cut to its first 16384 characters and marked when
   * it is longer; that of a set that is not too large, or of one record alone, is carried whole.
   */
  lemma TheLastRecordIsCutExactlyWhen(all: seq<Step>)
    requires all != []
    ensures
      var sent := CountBound(ShortNames(all));
      var last, kept := ShortName(all[|all| - 1]), Trim(all)[|Trim(all)| - 1];
      var cut := |all| > 1 && Total(sent) > 65536 && |last.output| > 16384;
      && kept.index == last.index && kept.name == last.name && kept.completed == last.completed
      && kept.output == (if cut then last.output[..16384] else last.output)
      && kept.truncated == (last.truncated || cut)
  {
    CountBoundShape(ShortNames(all));
    TrimUnfolds(all);
    hide ShortNames, CountBound, ShortName, Total, EarlyOf, Trim;
  }
}
