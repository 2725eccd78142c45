/** Step records as a device reports them, and the validation that makes them storable. */
module StepReports {
  import opened Prelude
  import opened StepBounds
  import StepLog

  // A decoded JSON value; fractions and arrays only ever matter for their truth.
  datatype Json =
    | Null
    | Bool(flag: bool)
    | Int(value: int)
    | Str(text: string)
    | Obj(fields: map<string, Json>)
    | Other(truthy: bool)

  function Get(entry: Json, name: string): Json
    requires entry.Obj?
  {
    if name in entry.fields then entry.fields[name] else Null
  }

  predicate Truthy(value: Json) {
    match value
    case Null => false
    case Bool(flag) => flag
    case Int(n) => n != 0
    case Str(text) => text != ""
    case Obj(fields) => fields != map[]
    case Other(truthy) => truthy
  }

  predicate IsStep(entry: Json) {
    entry.Obj? && Get(entry, "index").Int? && Get(entry, "name").Str?
  }

  function StatedDropped(value: Json): nat {
    if value.Int? && value.value >= 0 then value.value else 0
  }

  /** The record one valid entry is stored as. */
  function Accepted(entry: Json): Step
    requires IsStep(entry)
  {
    var output := if Get(entry, "output").Str? then Get(entry, "output").text else "";
    Step(Get(entry, "index").value,
         Take(Get(entry, "name").text, MAX_STEP_NAME_CHARS),
         Last(output, MAX_STEP_CHARS),
         Truthy(Get(entry, "completed")),
         |output| > MAX_STEP_CHARS || Truthy(Get(entry, "truncated")),
         StatedDropped(Get(entry, "dropped")))
  }

  function CountSteps(entries: seq<Json>): (n: nat)
    ensures n <= |entries|
  {
    if entries == [] then 0 else (if IsStep(entries[0]) then 1 else 0) + CountSteps(entries[1..])
  }

  /** The count stated by the last record that states one. */
  function LastStated(entries: seq<Json>): nat {
    if entries == [] then 0
    else
      var entry := entries[|entries| - 1];
      if IsStep(entry) && StatedDropped(Get(entry, "dropped")) > 0 then StatedDropped(Get(entry, "dropped"))
      else LastStated(entries[..|entries| - 1])
  }

  /** How many steps a report describes, with those it says it left out. */
  function ReportedTotal(entries: seq<Json>): nat {
    CountSteps(entries) + LastStated(entries)
  }

  /** The records of the leading entries that fit, and whether one did not. */
  function Kept(entries: seq<Json>, total: nat): (seq<Step>, bool) {
    if entries == [] then ([], false)
    else if !IsStep(entries[0]) then Kept(entries[1..], total)
    else
      var step := Accepted(entries[0]);
      if total + Size(step) > MAX_TOTAL_CHARS then ([], true)
      else
        var (rest, full) := Kept(entries[1..], total + Size(step));
        ([step] + rest, full)
  }

  /** The count of a set that lost records replaces what its last record stated. */
  function Restated(steps: seq<Step>, total: nat): seq<Step> {
    if steps == [] then steps
    else steps[|steps| - 1 := steps[|steps| - 1].(dropped := if total > |steps| then total - |steps| else 0)]
  }

  /** Validate the steps of a report; anything but an array holds none. */
  function Encode(entries: seq<Json>): seq<Step> {
    var (steps, full) := Kept(Take(entries, MAX_STEPS), 0);
    if full || |entries| > MAX_STEPS then Restated(steps, ReportedTotal(entries)) else steps
  }

  /** A stored record, as the report and the store carry it. */
  function ToJson(s: Step): Json {
    Obj(map["index" := Int(s.index), "name" := Str(s.name), "output" := Str(s.output),
            "completed" := Bool(s.completed), "truncated" := Bool(s.truncated), "dropped" := Int(s.dropped)])
  }

  function ToJsons(steps: seq<Step>): (entries: seq<Json>)
    ensures |entries| == |steps|
    ensures forall i | 0 <= i < |steps| :: entries[i] == ToJson(steps[i])
  {
    seq(|steps|, i requires 0 <= i < |steps| => ToJson(steps[i]))
  }

  // ---- what validation keeps and what it leaves alone ----

  lemma {:induction false} KeptIsBounded(entries: seq<Json>, total: nat)
    requires total <= MAX_TOTAL_CHARS
    ensures
      var (steps, _) := Kept(entries, total);
      && |steps| <= CountSteps(entries)
      && total + Total(steps) <= MAX_TOTAL_CHARS
      && forall i | 0 <= i < |steps| :: |steps[i].name| <= MAX_STEP_NAME_CHARS && |steps[i].output| <= MAX_STEP_CHARS
  {
    if entries != [] {
      if !IsStep(entries[0]) {
        KeptIsBounded(entries[1..], total);
      } else {
        var step := Accepted(entries[0]);
        if total + Size(step) <= MAX_TOTAL_CHARS {
          KeptIsBounded(entries[1..], total + Size(step));
          var (rest, _) := Kept(entries[1..], total + Size(step));
          assert ([step] + rest)[1..] == rest;
        }
      }
    }
  }

  lemma {:induction false} RestatingKeepsSizes(steps: seq<Step>, total: nat)
    ensures Total(Restated(steps, total)) == Total(steps)
    ensures |Restated(steps, total)| == |steps|
  {
    if steps != [] {
      var n, last := |steps| - 1, steps[|steps| - 1];
      var restated := Restated(steps, total);
      assert steps == steps[..n] + [last];
      assert restated == steps[..n] + [restated[n]];
      TotalWith(steps[..n], last);
      TotalWith(steps[..n], restated[n]);
    }
  }

  /** Whatever a device sends, what is stored is bounded. */
  lemma EncodedIsBounded(entries: seq<Json>)
    ensures Bounded(Encode(entries))
  {
    KeptIsBounded(Take(entries, MAX_STEPS), 0);
    var (steps, _) := Kept(Take(entries, MAX_STEPS), 0);
    RestatingKeepsSizes(steps, ReportedTotal(entries));
  }

  lemma ARecordReadsBack(s: Step)
    requires |s.name| <= MAX_STEP_NAME_CHARS && |s.output| <= MAX_STEP_CHARS
    ensures IsStep(ToJson(s)) && Accepted(ToJson(s)) == s
  {
  }

  lemma {:induction false} KeptReadsBack(steps: seq<Step>, total: nat)
    requires total + Total(steps) <= MAX_TOTAL_CHARS
    requires forall i | 0 <= i < |steps| ::
               |steps[i].name| <= MAX_STEP_NAME_CHARS && |steps[i].output| <= MAX_STEP_CHARS
    ensures Kept(ToJsons(steps), total) == (steps, false)
  {
    if steps != [] {
      ARecordReadsBack(steps[0]);
      assert ToJsons(steps)[1..] == ToJsons(steps[1..]);
      KeptReadsBack(steps[1..], total + Size(steps[0]));
      assert [steps[0]] + steps[1..] == steps;
    }
  }

  /** Validating a bounded set changes nothing. */
  lemma EncodingLeavesABoundedSetAlone(steps: seq<Step>)
    requires Bounded(steps)
    ensures Encode(ToJsons(steps)) == steps
  {
    KeptReadsBack(steps, 0);
  }

  /** Validating twice is validating once, whatever was sent. */
  lemma EncodingTwiceIsEncodingOnce(entries: seq<Json>)
    ensures Encode(ToJsons(Encode(entries))) == Encode(entries)
  {
    EncodedIsBounded(entries);
    EncodingLeavesABoundedSetAlone(Encode(entries));
  }

  lemma {:induction false} CountOfPrefix(entries: seq<Json>, n: nat)
    requires n <= |entries|
    ensures CountSteps(entries[..n]) <= CountSteps(entries)
  {
    if n > 0 {
      assert entries[..n][1..] == entries[1..][..n - 1];
      CountOfPrefix(entries[1..], n - 1);
    }
  }

  lemma {:induction false} NothingFullKeepsEverything(entries: seq<Json>, total: nat)
    ensures !Kept(entries, total).1 ==> |Kept(entries, total).0| == CountSteps(entries)
  {
    if entries != [] {
      NothingFullKeepsEverything(entries[1..], total);
      if IsStep(entries[0]) {
        NothingFullKeepsEverything(entries[1..], total + Size(Accepted(entries[0])));
      }
    }
  }

  lemma {:induction false} SomethingValidIsKept(entries: seq<Json>)
    ensures Kept(entries, 0).0 == [] <==> CountSteps(entries) == 0
  {
    if entries != [] && !IsStep(entries[0]) { SomethingValidIsKept(entries[1..]); }
  }

  /** The last record that states a count decides, read from the front as from the back. */
  lemma {:induction false} LastStatedFromTheFront(entry: Json, rest: seq<Json>)
    ensures LastStated([entry] + rest)
         == if LastStated(rest) > 0 then LastStated(rest)
            else if IsStep(entry) then StatedDropped(Get(entry, "dropped"))
            else 0
  {
    var entries := [entry] + rest;
    if rest == [] {
      assert entries[..0] == [];
    } else {
      assert entries[..|entries| - 1] == [entry] + rest[..|rest| - 1];
      LastStatedFromTheFront(entry, rest[..|rest| - 1]);
    }
  }

  lemma {:induction false} StatedByAll(steps: seq<Step>)
    ensures CountSteps(ToJsons(steps)) == |steps|
    ensures LastStated(ToJsons(steps)) == 0 <==> forall i | 0 <= i < |steps| :: steps[i].dropped == 0
    ensures steps != [] && steps[|steps| - 1].dropped > 0 ==> LastStated(ToJsons(steps)) == steps[|steps| - 1].dropped
  {
    if steps != [] {
      StatedByAll(steps[1..]);
      var rest := ToJsons(steps[1..]);
      assert ToJsons(steps) == [ToJson(steps[0])] + rest;
      assert (ToJsons(steps))[1..] == rest;
      LastStatedFromTheFront(ToJson(steps[0]), rest);
      assert IsStep(ToJson(steps[0])) && StatedDropped(Get(ToJson(steps[0]), "dropped")) == steps[0].dropped;
      assert forall i | 1 <= i < |steps| :: steps[i] == steps[1..][i - 1];
    }
  }

  lemma AcceptedStatesTheSame(entry: Json)
    requires IsStep(entry)
    ensures IsStep(ToJson(Accepted(entry)))
    ensures StatedDropped(Get(ToJson(Accepted(entry)), "dropped")) == StatedDropped(Get(entry, "dropped"))
  {
  }

  lemma KeptFromTheFront(entry: Json, rest: seq<Json>, total: nat)
    requires IsStep(entry) && !Kept([entry] + rest, total).1
    ensures
      var step := Accepted(entry);
      && !Kept(rest, total + Size(step)).1
      && Kept([entry] + rest, total).0 == [step] + Kept(rest, total + Size(step)).0
  {
    assert ([entry] + rest)[1..] == rest;
    hide Accepted, IsStep, Size;
  }

  lemma ToJsonsFromTheFront(step: Step, rest: seq<Step>)
    ensures ToJsons([step] + rest) == [ToJson(step)] + ToJsons(rest)
  {
    hide ToJson;
  }

  /** Records kept whole state what their entries stated. */
  lemma {:induction false} KeptStatesTheSame(entries: seq<Json>, total: nat)
    requires !Kept(entries, total).1
    ensures LastStated(ToJsons(Kept(entries, total).0)) == LastStated(entries)
    decreases |entries|
  {
    if entries != [] {
      var entry, others := entries[0], entries[1..];
      assert entries == [entry] + others;
      if IsStep(entry) {
        hide *;
        var step := Accepted(entry);
        KeptFromTheFront(entry, others, total);
        KeptStatesTheSame(others, total + Size(step));
        AcceptedStatesTheSame(entry);
        var rest := Kept(others, total + Size(step)).0;
        ToJsonsFromTheFront(step, rest);
        LastStatedFromTheFront(entry, others);
        LastStatedFromTheFront(ToJson(step), ToJsons(rest));
      } else {
        LastStatedFromTheFront(entry, others);
        KeptStatesTheSame(others, total);
      }
    }
  }

  lemma {:induction false} LastStatedOfPrefix(entries: seq<Json>, n: nat)
    requires n <= |entries|
    ensures LastStated(entries) == 0 ==> LastStated(entries[..n]) == 0
  {
    if n < |entries| {
      LastStatedOfPrefix(entries[..|entries| - 1], n);
      assert entries[..|entries| - 1][..n] == entries[..n];
    } else {
      assert entries[..n] == entries;
    }
  }

  lemma AFullSetCountsMore(entries: seq<Json>, total: nat)
    requires Kept(entries, total).1
    ensures |Kept(entries, total).0| < CountSteps(entries)
    decreases |entries|
  {
    if IsStep(entries[0]) {
      if total + Size(Accepted(entries[0])) <= MAX_TOTAL_CHARS {
        AFullSetCountsMore(entries[1..], total + Size(Accepted(entries[0])));
      }
    } else {
      AFullSetCountsMore(entries[1..], total);
    }
  }

  /** A restated set describes exactly the total it was restated for. */
  lemma RestatedDescribesTheTotal(steps: seq<Step>, total: nat)
    requires steps != [] && |steps| <= total
    requires total == |steps| ==> forall i | 0 <= i < |steps| :: steps[i].dropped == 0
    ensures ReportedTotal(ToJsons(Restated(steps, total))) == total
  {
    var restated := Restated(steps, total);
    StatedByAll(restated);
  }

  /** A set that lost records, in length or in size, describes the whole report when it has any record. */
  lemma ALossIsCounted(entries: seq<Json>)
    requires Kept(Take(entries, MAX_STEPS), 0).1 || |entries| > MAX_STEPS
    requires Encode(entries) != []
    ensures ReportedTotal(ToJsons(Encode(entries))) == ReportedTotal(entries)
  {
    var sent := Take(entries, MAX_STEPS);
    var (steps, full) := Kept(sent, 0);
    if full { AFullSetCountsMore(sent, 0); } else { NothingFullKeepsEverything(sent, 0); }
    if |entries| > MAX_STEPS { CountOfPrefix(entries, MAX_STEPS); }
    var total := ReportedTotal(entries);
    if total == |steps| {
      LastStatedOfPrefix(entries, |sent|);
      KeptStatesTheSame(sent, 0);
      StatedByAll(steps);
    }
    RestatedDescribesTheTotal(steps, total);
  }

  /**
   * What is stored of a report describes as many steps as the report did if and only if one of its
   * first 64 entries is a valid record, or none of its entries is. A stored set that is not empty
   * either holds every valid record, or its length and its last count add up to all described.
   */
  lemma EncodingConserves(entries: seq<Json>)
    ensures ReportedTotal(ToJsons(Encode(entries))) == ReportedTotal(entries)
       <==> CountSteps(Take(entries, MAX_STEPS)) > 0 || CountSteps(entries) == 0
    ensures Encode(entries) == [] <==> CountSteps(Take(entries, MAX_STEPS)) == 0
    ensures
      var steps := Encode(entries);
      steps != [] ==>
        || |steps| == CountSteps(entries) == CountSteps(Take(entries, MAX_STEPS))
        || |steps| + steps[|steps| - 1].dropped == ReportedTotal(entries)
  {
    var sent := Take(entries, MAX_STEPS);
    KeptIsBounded(sent, 0);
    SomethingValidIsKept(sent);
    NothingFullKeepsEverything(sent, 0);
    if |entries| > MAX_STEPS { CountOfPrefix(entries, MAX_STEPS); }
    StoredDescribes(entries);
  }

  lemma StoredDescribes(entries: seq<Json>)
    ensures ReportedTotal(ToJsons(Encode(entries))) == ReportedTotal(entries)
       <==> CountSteps(Take(entries, MAX_STEPS)) > 0 || CountSteps(entries) == 0
  {
    var sent := Take(entries, MAX_STEPS);
    var (steps, full) := Kept(sent, 0);
    SomethingValidIsKept(sent);
    if steps == [] {
      assert Encode(entries) == [] && ReportedTotal(ToJsons([])) == 0;
      if CountSteps(entries) == 0 { NoRecordStatesNothing(entries); }
    } else if full || |entries| > MAX_STEPS {
      ALossIsCounted(entries);
    } else {
      NothingFullKeepsEverything(sent, 0);
      KeptStatesTheSame(sent, 0);
      StatedByAll(steps);
    }
  }

  lemma {:induction false} NoRecordStatesNothing(entries: seq<Json>)
    requires CountSteps(entries) == 0
    ensures LastStated(entries) == 0
  {
    if entries != [] {
      NoRecordStatesNothing(entries[1..]);
      LastStatedFromTheFront(entries[0], entries[1..]);
      assert [entries[0]] + entries[1..] == entries;
    }
  }

  lemma {:induction false} NoiseCountsNone(noise: Json, n: nat)
    requires !IsStep(noise)
    ensures CountSteps(seq(n, _ => noise)) == 0
  {
    if n > 0 {
      assert seq(n, _ => noise)[1..] == seq(n - 1, _ => noise);
      NoiseCountsNone(noise, n - 1);
    }
  }

  /** Behind 64 entries that are no records every record is lost, and nothing stored says so. */
  lemma ALeadOfNoiseLosesEveryRecord(noise: Json, records: seq<Json>)
    requires !IsStep(noise) && records != [] && forall i | 0 <= i < |records| :: IsStep(records[i])
    ensures
      var entries := seq(MAX_STEPS, _ => noise) + records;
      && Encode(entries) == [] && CountSteps(entries) > 0
      && ReportedTotal(ToJsons(Encode(entries))) != ReportedTotal(entries)
  {
    var lead := seq(MAX_STEPS, _ => noise);
    var entries := lead + records;
    NoiseCountsNone(noise, MAX_STEPS);
    assert Take(entries, MAX_STEPS) == lead;
    SomeRecordCounts(lead, records);
    EncodingConserves(entries);
  }

  lemma {:induction false} SomeRecordCounts(lead: seq<Json>, records: seq<Json>)
    requires records != [] && IsStep(records[0])
    ensures CountSteps(lead + records) > 0
  {
    if lead == [] {
      assert lead + records == records;
    } else {
      assert (lead + records)[1..] == lead[1..] + records;
      SomeRecordCounts(lead[1..], records);
    }
  }

  /** What a device trims is stored as it was trimmed, and still accounts for every step it ran. */
  lemma ATrimmedReportIsStoredAsItIs(all: seq<Step>)
    requires all != [] && forall i | 0 <= i < |all| :: |all[i].output| <= MAX_STEP_CHARS && all[i].dropped == 0
    ensures Encode(ToJsons(Trim(all))) == Trim(all)
    ensures |Trim(all)| > 0 && |Trim(all)| + Trim(all)[|Trim(all)| - 1].dropped == |all|
  {
    TrimmingConserves(all);
    EncodingLeavesABoundedSetAlone(Trim(all));
  }

  // The records of a run of these steps, told from its log and not yet cut down.
  ghost predicate Tells(all: seq<Step>, steps: seq<StepLog.Ran>, stopped: bool) {
    && |all| == |steps|
    && forall i | 0 <= i < |all| ::
         && all[i].index == i + 1 && all[i].name == steps[i].name
         && (all[i].completed <==> !(stopped && i == |all| - 1))
         && |all[i].output| <= MAX_STEP_CHARS && all[i].dropped == 0
  }

  // The records kept of a run: its first steps and its last, which counts the others.
  ghost predicate EndsWhereItStopped(stored: seq<Step>, steps: seq<StepLog.Ran>, stopped: bool) {
    var n := |stored| - 1;
    && 0 <= n < |steps| && |stored| + stored[n].dropped == |steps|
    && stored[n].index == |steps| && stored[n].completed == !stopped
    && stored[n].name == Take(steps[|steps| - 1].name, MAX_STEP_NAME_CHARS)
    && forall i | 0 <= i < n ::
         stored[i].index == i + 1 && stored[i].completed && stored[i].name == Take(steps[i].name, MAX_STEP_NAME_CHARS)
  }

  lemma TrimmedRecordsEndWhereTheRunDid(all: seq<Step>, steps: seq<StepLog.Ran>, stopped: bool)
    requires Tells(all, steps, stopped) && all != []
    ensures EndsWhereItStopped(Trim(all), steps, stopped)
  {
    TrimmingConserves(all);
    hide *;
    KeptRecordsEndWhereTheRunDid(all, Trim(all), steps, stopped);
  }

  lemma KeptRecordsEndWhereTheRunDid(all: seq<Step>, kept: seq<Step>, steps: seq<StepLog.Ran>, stopped: bool)
    requires Tells(all, steps, stopped) && 0 < |kept| <= |all|
    requires kept[|kept| - 1] == ShortName(all[|all| - 1]).(dropped := kept[|kept| - 1].dropped)
    requires |kept| + kept[|kept| - 1].dropped == |all| + all[|all| - 1].dropped
    requires forall i | 0 <= i < |kept| - 1 :: kept[i] == ShortName(all[i])
    ensures EndsWhereItStopped(kept, steps, stopped)
  {
    hide ShortName, Take, Tells;
    var n := |kept| - 1;
    ToldOf(all, steps, stopped, |all| - 1);
    ShorteningKeeps(all[|all| - 1]);
    forall i | 0 <= i < n
      ensures kept[i].index == i + 1 && kept[i].completed
      ensures kept[i].name == Take(steps[i].name, MAX_STEP_NAME_CHARS)
    {
      ToldOf(all, steps, stopped, i);
      ShorteningKeeps(all[i]);
    }
  }

  lemma ToldOf(all: seq<Step>, steps: seq<StepLog.Ran>, stopped: bool, i: nat)
    requires Tells(all, steps, stopped) && i < |all|
    ensures |all| == |steps|
    ensures all[i].index == i + 1 && all[i].name == steps[i].name && all[i].dropped == 0
    ensures all[i].completed <==> !(stopped && i == |all| - 1)
  {
  }

  lemma ShorteningKeeps(s: Step)
    ensures ShortName(s).index == s.index && ShortName(s).completed == s.completed
    ensures ShortName(s).name == Take(s.name, MAX_STEP_NAME_CHARS)
  {
  }

  lemma ALogTellsItsRun(before: StepLog.Log, steps: seq<StepLog.Ran>, nonce: string, stopped: bool, tail: StepLog.Log)
    requires steps != [] && StepLog.AllQuiet(before, nonce) && StepLog.AllQuiet(tail, nonce)
    requires forall i | 0 <= i < |steps| :: StepLog.AllQuiet(steps[i].output, nonce)
    ensures Tells(StepLog.AllSteps(before + StepLog.Rendered(steps, 1, nonce, stopped, tail), nonce), steps, stopped)
  {
    StepLog.ARunReadsBackAsItsSteps(before, steps, nonce, stopped, tail);
    hide StepLog.AllSteps, StepLog.Rendered, StepLog.Expected, StepLog.AllQuiet;
    StepLog.ExpectedSteps(steps, 1, stopped, tail, 0);
    forall i | 0 <= i < |steps| {
      StepLog.ExpectedSteps(steps, 1, stopped, tail, i);
    }
  }

  /**
   * From the run to the store: whatever a run's steps print, as long as none prints one of its
   * markers, the stored records end with the step the run ended in, complete exactly when the run
   * did not stop there; those before it are its first steps, all complete; and the count on the
   * last record accounts for the rest.
   */
  lemma AStoredRunEndsWhereItStopped(before: StepLog.Log, steps: seq<StepLog.Ran>, nonce: string, stopped: bool,
                                     tail: StepLog.Log)
    requires steps != [] && StepLog.AllQuiet(before, nonce) && StepLog.AllQuiet(tail, nonce)
    requires forall i | 0 <= i < |steps| :: StepLog.AllQuiet(steps[i].output, nonce)
    ensures
      var log := before + StepLog.Rendered(steps, 1, nonce, stopped, tail);
      EndsWhereItStopped(Encode(ToJsons(Trim(StepLog.AllSteps(log, nonce)))), steps, stopped)
  {
    var all := StepLog.AllSteps(before + StepLog.Rendered(steps, 1, nonce, stopped, tail), nonce);
    ALogTellsItsRun(before, steps, nonce, stopped, tail);
    hide StepLog.AllSteps, StepLog.Rendered, StepLog.AllQuiet, Encode, Trim, EndsWhereItStopped;
    ATrimmedReportIsStoredAsItIs(all);
    TrimmedRecordsEndWhereTheRunDid(all, steps, stopped);
  }

  // ---- validation as it runs ----

  /** What is kept from a place on, behind the records kept so far. */
  lemma KeptFrom(entries: seq<Json>, k: nat, total: nat, before: seq<Step>)
    requires k < |entries|
    ensures
      var (steps, full) := Kept(entries[k..], total);
      if !IsStep(entries[k]) then Kept(entries[k + 1..], total) == (steps, full)
      else
        var step := Accepted(entries[k]);
        if total + Size(step) > MAX_TOTAL_CHARS then before + steps == before && full
        else
          var rest := Kept(entries[k + 1..], total + Size(step));
          before + steps == before + [step] + rest.0 && full == rest.1
  {
    hide IsStep, Accepted, Size;
    assert entries[k..][1..] == entries[k + 1..];
  }

  lemma NothingIsKeptOfNothing(total: nat, before: seq<Step>)
    ensures Kept([], total) == ([], false) && before + [] == before
  {
  }

  method EncodeSteps(value: Option<seq<Json>>) returns (steps: seq<Step>)
    ensures steps == if value.None? then [] else Encode(value.value)
  {
    hide IsStep, Accepted, Size, ReportedTotal, Kept;
    if value.None? {
      return [];
    }
    var entries := value.value;
    var sent := Take(entries, MAX_STEPS);
    steps := [];
    var total: nat := 0;
    var k := 0;
    var full := false;
    assert sent[0..] == sent && steps + Kept(sent, total).0 == Kept(sent, total).0;
    while k < |sent| && !full
      invariant k <= |sent|
      invariant !full ==> Kept(sent, 0) == (steps + Kept(sent[k..], total).0, Kept(sent[k..], total).1)
      invariant full ==> Kept(sent, 0) == (steps, true)
      decreases |sent| - k, !full
    {
      var entry := sent[k];
      KeptFrom(sent, k, total, steps);
      if IsStep(entry) {
        var step := Accepted(entry);
        if total + Size(step) > MAX_TOTAL_CHARS {
          full := true;
        } else {
          total := total + Size(step);
          steps := steps + [step];
        }
      }
      k := if full then k else k + 1;
    }
    assert full || sent[k..] == [];
    NothingIsKeptOfNothing(total, steps);
    if (full || |entries| > MAX_STEPS) && steps != [] {
      var reported := ReportTotal(entries);
      var last := |steps| - 1;
      steps := steps[last := steps[last].(dropped := if reported > |steps| then reported - |steps| else 0)];
    }
  }

  /** Count the records, then look for a stated count from the last one back. */
  method ReportTotal(entries: seq<Json>) returns (total: nat)
    ensures total == ReportedTotal(entries)
  {
    var valid := 0;
    for k := 0 to |entries|
      invariant valid + CountSteps(entries[k..]) == CountSteps(entries)
    {
      assert entries[k..][1..] == entries[k + 1..];
      if IsStep(entries[k]) {
        valid := valid + 1;
      }
    }
    var k := |entries|;
    assert entries[..k] == entries;
    while k > 0
      invariant k <= |entries|
      invariant LastStated(entries[..k]) == LastStated(entries)
    {
      var entry := entries[k - 1];
      assert entries[..k][..k - 1] == entries[..k - 1];
      if IsStep(entry) && StatedDropped(Get(entry, "dropped")) > 0 {
        return valid + StatedDropped(Get(entry, "dropped"));
      }
      k := k - 1;
    }
    return valid;
  }

  // ---- what one entry is stored as, and which are stored ----

  /** A field's value, as a reader takes it for true: nothing, false, zero and the empty are not. */
  ghost predicate HoldsTrue(entry: Json, name: string)
    requires entry.Obj?
  {
    name in entry.fields.Keys
    && match entry.fields[name]
       case Null => false
       case Bool(flag) => flag
       case Int(n) => n < 0 || n > 0
       case Str(text) => |text| > 0
       case Obj(fields) => fields.Keys != {}
       case Other(truthy) => truthy
  }

  /**
   * An entry is a record exactly when it has a whole number as its index and a text as its name. Its
   * name is cut to the first 500 characters and its output to the last 16384, it is marked as cut when
   * the output was, and a count is taken from a whole number that is not negative.
   */
  lemma AnEntryIsStoredAs(entry: Json)
    ensures
      IsStep(entry) <==>
        && entry.Obj? && "index" in entry.fields && entry.fields["index"].Int?
        && "name" in entry.fields && entry.fields["name"].Str?
    ensures
      IsStep(entry) ==>
        var step, fields := Accepted(entry), entry.fields;
        var name := fields["name"].text;
        var output := if "output" in fields && fields["output"].Str? then fields["output"].text else "";
        && step.index == fields["index"].value
        && step.name == (if |name| <= 500 then name else name[..500])
        && step.output == (if |output| <= 16384 then output else output[|output| - 16384..])
        && step.completed == HoldsTrue(entry, "completed")
        && step.truncated == (|output| > 16384 || HoldsTrue(entry, "truncated"))
        && step.dropped == if "dropped" in fields && fields["dropped"].Int? && fields["dropped"].value >= 0
                           then fields["dropped"].value else 0
  {
  }

  // The records of the entries, as each is stored alone.
  ghost function Records(entries: seq<Json>): seq<Step> {
    if entries == [] then []
    else
      var last := entries[|entries| - 1];
      Records(entries[..|entries| - 1]) + if IsStep(last) then [Accepted(last)] else []
  }

  lemma {:induction false} RecordsFromTheFront(entry: Json, entries: seq<Json>)
    ensures Records([entry] + entries) == (if IsStep(entry) then [Accepted(entry)] else []) + Records(entries)
    decreases |entries|
  {
    hide IsStep, Accepted;
    if entries == [] {
      assert [entry] + entries == [entry];
      assert [entry][..0] == [];
    } else {
      var n := |entries| - 1;
      RecordsFromTheFront(entry, entries[..n]);
      assert ([entry] + entries)[..|entries|] == [entry] + entries[..n];
    }
  }

  lemma {:induction false} KeptIsALeadingPart(entries: seq<Json>, total: nat)
    requires total <= 65536
    ensures
      var (steps, full) := Kept(entries, total);
      var all := Records(entries);
      && |steps| <= |all| && steps == all[..|steps|] && (full <==> |steps| < |all|)
      && total + Total(steps) <= 65536
      && (full ==> total + Total(all[..|steps| + 1]) > 65536)
  {
    hide IsStep, Accepted;
    if entries != [] {
      assert entries == [entries[0]] + entries[1..];
      RecordsFromTheFront(entries[0], entries[1..]);
      var rest := Records(entries[1..]);
      if !IsStep(entries[0]) {
        assert [] + rest == rest;
        KeptIsALeadingPart(entries[1..], total);
      } else {
        var step := Accepted(entries[0]);
        assert ([step] + rest)[..1] == [step];
        OneMoreInTotal(step, []);
        if total + Size(step) <= 65536 {
          KeptIsALeadingPart(entries[1..], total + Size(step));
          var (steps, full) := Kept(entries[1..], total + Size(step));
          OneMoreInTotal(step, steps);
          assert ([step] + rest)[..|steps| + 1] == [step] + rest[..|steps|];
          if full {
            assert ([step] + rest)[..|steps| + 2] == [step] + rest[..|steps| + 1];
            OneMoreInTotal(step, rest[..|steps| + 1]);
          }
        }
      }
    }
  }

  lemma OneMoreInTotal(step: Step, steps: seq<Step>)
    ensures Total([step] + steps) == Size(step) + Total(steps)
  {
    assert ([step] + steps)[1..] == steps;
  }

  /**
   * What is stored of a report is a leading part of the records among its first 64 entries: all of them,
   * or as many as fit 65536 characters, the last then counting every one the report describes.
   */
  lemma AReportIsStoredFromItsStart(entries: seq<Json>)
    ensures
      var steps := Encode(entries);
      var all := Records(if |entries| <= 64 then entries else entries[..64]);
      && |steps| <= |all|
      && (forall i | 0 <= i < |steps| - 1 :: steps[i] == all[i])
      && (|steps| > 0 ==> steps[|steps| - 1].(dropped := 0) == all[|steps| - 1].(dropped := 0))
      && (|steps| < |all| ==> Total(all[..|steps| + 1]) > 65536)
      && (|steps| > 0 && |steps| == |all| && |entries| <= 64 ==> steps == all)
      && (|steps| > 0 && (|steps| < |all| || |entries| > 64) ==>
            steps[|steps| - 1].dropped
            == if ReportedTotal(entries) > |steps| then ReportedTotal(entries) - |steps| else 0)
  {
    var sent := Take(entries, MAX_STEPS);
    KeptIsALeadingPart(sent, 0);
    var (kept, full) := Kept(sent, 0);
    var all := Records(sent);
    hide Kept, Records, ReportedTotal, Total;
    assert forall i | 0 <= i < |kept| :: kept[i] == all[..|kept|][i] == all[i];
  }
}
