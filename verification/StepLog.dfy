/**
 * A run's log, split into its steps by the markers the executor wrote. The log is a sequence of
 * lines; what a line says as a marker is given with it.
 */
module StepLog {
  import opened Prelude
  import opened StepBounds

  datatype Kind = Mark(index: nat, nonce: string, name: string) | EndMark(index: nat, nonce: string) | Plain

  datatype Line = Line(text: string, kind: Kind)

  type Log = seq<Line>

  // One step's part of the log: its marker, the lines up to the next step's marker, and whether
  // there is one.
  datatype Segment = Segment(mark: Line, body: Log, followed: bool)

  /** Whether a line starts the step that comes next: the first marker of the run, or the next number. */
  predicate Starts(line: Line, nonce: string, last: Option<nat>) {
    && line.kind.Mark? && line.kind.nonce == nonce
    && (last.None? || line.kind.index == last.value + 1)
  }

  /** The first line at which the next step starts, or the length of the log. */
  function NextStart(log: Log, nonce: string, last: Option<nat>): (n: nat)
    ensures n <= |log|
    ensures n < |log| ==> Starts(log[n], nonce, last)
    ensures forall i | 0 <= i < n :: !Starts(log[i], nonce, last)
  {
    if log == [] || Starts(log[0], nonce, last) then 0 else 1 + NextStart(log[1..], nonce, last)
  }

  // The first step of a log, and the log from the step after it on.
  datatype Cut = Cut(first: Segment, rest: Log)

  function FirstCut(log: Log, nonce: string, last: Option<nat>): (cut: Option<Cut>)
    ensures cut.Some? ==> |cut.value.rest| < |log| && cut.value.first.mark.kind.Mark?
  {
    var at := NextStart(log, nonce, last);
    if at == |log| then None else Some(CutBehind(log[at], log[at + 1..], nonce))
  }

  function CutBehind(mark: Line, after: Log, nonce: string): (cut: Cut)
    requires mark.kind.Mark?
    ensures |cut.rest| <= |after| && cut.first.mark == mark
  {
    var next := NextStart(after, nonce, Some(mark.kind.index));
    Cut(Segment(mark, after[..next], next < |after|), after[next..])
  }

  /** The log cut at every step that really starts. */
  function Segments(log: Log, nonce: string, last: Option<nat>): (segments: seq<Segment>)
    ensures forall i | 0 <= i < |segments| :: segments[i].mark.kind.Mark?
    decreases |log|
  {
    match FirstCut(log, nonce, last)
    case None => []
    case Some(Cut(first, rest)) => [first] + Segments(rest, nonce, Some(first.mark.kind.index))
  }

  /** Each line with the newline behind it. */
  function Closed(lines: Log): string {
    if lines == [] then "" else lines[0].text + "\n" + Closed(lines[1..])
  }

  function Joined(lines: Log): string
    requires lines != []
  {
    if |lines| == 1 then lines[0].text else lines[0].text + "\n" + Joined(lines[1..])
  }

  /** The text behind a marker: the newline that ends it, then lines that run on or end with the log. */
  function Output(lines: Log, runsOn: bool): string {
    if runsOn then "\n" + Closed(lines) else if lines == [] then "" else "\n" + Joined(lines)
  }

  /** The text of a log, its lines divided by newlines. */
  ghost function TextOf(lines: Log): string {
    if lines == [] then ""
    else if |lines| == 1 then lines[0].text
    else TextOf(lines[..|lines| - 1]) + "\n" + lines[|lines| - 1].text
  }

  lemma {:induction false} TextFromTheFront(line: Line, lines: Log)
    ensures TextOf([line] + lines) == line.text + if lines == [] then "" else "\n" + TextOf(lines)
    decreases |lines|
  {
    if lines == [] {
      assert [line] + lines == [line];
      assert line.text + "" == line.text;
    } else {
      var n := |lines| - 1;
      assert ([line] + lines)[..|lines|] == [line] + lines[..n];
      TextFromTheFront(line, lines[..n]);
      if n == 0 {
        assert [line] + lines[..0] == [line];
        assert TextOf([line] + lines) == line.text + "\n" + lines[0].text;
        assert line.text + "\n" + lines[0].text == line.text + ("\n" + lines[0].text);
      } else {
        var some := TextOf(lines[..n]);
        assert TextOf([line] + lines) == (line.text + ("\n" + some)) + "\n" + lines[n].text;
        assert (line.text + ("\n" + some)) + "\n" + lines[n].text == line.text + ("\n" + (some + "\n" + lines[n].text));
      }
    }
  }

  lemma {:induction false} LinesThatRunOn(lines: Log, rest: Log)
    requires rest != []
    ensures TextOf(lines + rest) == Closed(lines) + TextOf(rest)
    decreases |lines|
  {
    if lines == [] {
      assert lines + rest == rest;
      assert "" + TextOf(rest) == TextOf(rest);
    } else {
      assert lines + rest == [lines[0]] + (lines[1..] + rest);
      TextFromTheFront(lines[0], lines[1..] + rest);
      LinesThatRunOn(lines[1..], rest);
      hide TextOf, Closed;
      Regrouped(lines[0].text, Closed(lines[1..]), TextOf(rest));
      assert Closed(lines) == lines[0].text + "\n" + Closed(lines[1..]) by { ClosedFromTheFront(lines); }
    }
  }

  lemma ClosedFromTheFront(lines: Log)
    requires lines != []
    ensures Closed(lines) == lines[0].text + "\n" + Closed(lines[1..])
  {
  }

  lemma Regrouped(a: string, b: string, c: string)
    ensures a + ("\n" + (b + c)) == a + "\n" + b + c
  {
  }

  lemma {:induction false} JoinedIsTheText(lines: Log)
    requires lines != []
    ensures Joined(lines) == TextOf(lines)
    decreases |lines|
  {
    assert lines == [lines[0]] + lines[1..];
    TextFromTheFront(lines[0], lines[1..]);
    if |lines| > 1 {
      JoinedIsTheText(lines[1..]);
      hide TextOf;
      assert lines[0].text + ("\n" + TextOf(lines[1..])) == lines[0].text + "\n" + TextOf(lines[1..]);
    } else {
      assert lines[1..] == [];
    }
  }

  /**
   * A step's output is the text between its marker and what comes next: marker, output and the text
   * from there on are the text of the log, and so are marker and output where nothing comes.
   */
  lemma AnOutputIsTheTextBehindItsMarker(mark: Line, lines: Log, rest: Log)
    ensures TextOf([mark] + lines) == mark.text + Output(lines, false)
    ensures rest != [] ==> TextOf([mark] + (lines + rest)) == mark.text + Output(lines, true) + TextOf(rest)
  {
    TextFromTheFront(mark, lines);
    if lines != [] { JoinedIsTheText(lines); }
    if rest != [] {
      TextFromTheFront(mark, lines + rest);
      LinesThatRunOn(lines, rest);
      assert mark.text + ("\n" + (Closed(lines) + TextOf(rest))) == mark.text + ("\n" + Closed(lines)) + TextOf(rest);
    }
    hide TextOf, Closed, Joined;
    assert mark.text + "" == mark.text;
  }

  /** Where the first end marker of the run stands, or the length of the body. */
  function EndAt(body: Log, nonce: string): (n: nat)
    ensures n <= |body|
    ensures n < |body| ==> body[n].kind.EndMark? && body[n].kind.nonce == nonce
    ensures forall i | 0 <= i < n :: !(body[i].kind.EndMark? && body[i].kind.nonce == nonce)
  {
    if body == [] || (body[0].kind.EndMark? && body[0].kind.nonce == nonce) then 0 else 1 + EndAt(body[1..], nonce)
  }

  function Finished(log: Log, nonce: string): set<nat> {
    set line | line in log && line.kind.EndMark? && line.kind.nonce == nonce :: line.kind.index
  }

  function StepOf(segment: Segment, nonce: string, finished: set<nat>): Step
    requires segment.mark.kind.Mark?
  {
    var end := EndAt(segment.body, nonce);
    var ended := end < |segment.body|;
    var output := Output(segment.body[..end], ended || segment.followed);
    Step(segment.mark.kind.index, segment.mark.kind.name, Last(output, MAX_STEP_CHARS),
         ended || segment.mark.kind.index in finished || segment.followed,
         |output| > MAX_STEP_CHARS, 0)
  }

  /** Every step of a log, before the record set is trimmed. */
  function AllSteps(log: Log, nonce: string): (steps: seq<Step>) {
    var segments := Segments(log, nonce, None);
    seq(|segments|, i requires 0 <= i < |segments| => StepOf(segments[i], nonce, Finished(log, nonce)))
  }

  // ---- any log at all ----

  function Flattened(segments: seq<Segment>): Log {
    if segments == [] then [] else [segments[0].mark] + segments[0].body + Flattened(segments[1..])
  }

  lemma RestStartsAtOnce(log: Log, nonce: string, last: Option<nat>)
    ensures NextStart(log[NextStart(log, nonce, last)..], nonce, last) == 0
  {
  }

  lemma NothingCutNothingThere(log: Log, nonce: string, last: Option<nat>)
    ensures FirstCut(log, nonce, last).None? <==> NextStart(log, nonce, last) == |log|
  {
  }

  lemma SplitAt(log: Log, at: nat, size: nat)
    requires at < |log| && size <= |log[at + 1..]|
    ensures log == log[..at] + ([log[at]] + (log[at + 1..][..size] + log[at + 1..][size..]))
  {
    assert log[at + 1..] == log[at + 1..][..size] + log[at + 1..][size..];
    assert log == log[..at] + ([log[at]] + log[at + 1..]);
  }

  lemma ACutLosesNoLine(log: Log, nonce: string, last: Option<nat>)
    requires FirstCut(log, nonce, last).Some?
    ensures
      var Cut(first, rest) := FirstCut(log, nonce, last).value;
      log == log[..NextStart(log, nonce, last)] + ([first.mark] + (first.body + rest))
  {
    var at := NextStart(log, nonce, last);
    SplitAt(log, at, NextStart(log[at + 1..], nonce, Some(log[at].kind.index)));
    hide NextStart;
  }

  /** The first step of a log reaches to the next one, which starts at once behind it. */
  lemma ACutEndsAtTheNextStep(log: Log, nonce: string, last: Option<nat>)
    requires FirstCut(log, nonce, last).Some?
    ensures
      var Cut(first, rest) := FirstCut(log, nonce, last).value;
      && Starts(first.mark, nonce, last)
      && NextStart(rest, nonce, Some(first.mark.kind.index)) == 0
      && (first.followed <==> rest != [])
      && forall k | 0 <= k < |first.body| :: !Starts(first.body[k], nonce, Some(first.mark.kind.index))
  {
    var at := NextStart(log, nonce, last);
    RestStartsAtOnce(log[at + 1..], nonce, Some(log[at].kind.index));
    hide NextStart, Starts;
  }

  lemma FlattenedWith(first: Segment, others: seq<Segment>, rest: Log)
    requires Flattened(others) == rest
    ensures Flattened([first] + others) == [first.mark] + (first.body + rest)
  {
    assert ([first] + others)[1..] == others;
    assert [first.mark] + first.body + rest == [first.mark] + (first.body + rest);
  }

  /** What comes before the first step, and the steps in order, are the whole log, line for line. */
  lemma {:induction false} SegmentsCoverTheLog(log: Log, nonce: string, last: Option<nat>)
    ensures log[..NextStart(log, nonce, last)] + Flattened(Segments(log, nonce, last)) == log
    decreases |log|
  {
    NothingCutNothingThere(log, nonce, last);
    hide NextStart, FirstCut;
    if FirstCut(log, nonce, last).Some? {
      var Cut(first, rest) := FirstCut(log, nonce, last).value;
      ACutLosesNoLine(log, nonce, last);
      ACutEndsAtTheNextStep(log, nonce, last);
      SegmentsCoverTheLog(rest, nonce, Some(first.mark.kind.index));
      var others := Segments(rest, nonce, Some(first.mark.kind.index));
      assert Segments(log, nonce, last) == [first] + others;
      hide Segments, Flattened, Starts;
      assert rest[..0] + Flattened(others) == Flattened(others);
      FlattenedWith(first, others, rest);
    }
  }

  /** The steps of any log are numbered one after another, and hold no line that starts the next. */
  lemma {:induction false} StepsAreConsecutive(log: Log, nonce: string, last: Option<nat>, i: nat)
    requires i < |Segments(log, nonce, last)|
    ensures
      var segments := Segments(log, nonce, last);
      && segments[i].mark.kind.nonce == nonce
      && segments[i].mark.kind.index == segments[0].mark.kind.index + i
      && (last.Some? ==> segments[0].mark.kind.index == last.value + 1)
      && (segments[i].followed <==> i + 1 < |segments|)
      && forall k | 0 <= k < |segments[i].body| ::
           !Starts(segments[i].body[k], nonce, Some(segments[i].mark.kind.index))
    decreases |log|
  {
    hide NextStart, FirstCut;
    var Cut(first, rest) := FirstCut(log, nonce, last).value;
    var number := Some(first.mark.kind.index);
    ACutEndsAtTheNextStep(log, nonce, last);
    NothingCutNothingThere(rest, nonce, number);
    if i > 0 {
      StepsAreConsecutive(rest, nonce, number, i - 1);
    }
  }

  // ---- the round trip ----

  // One step as the script runs it: its command on one line, and the lines it prints.
  datatype Ran = Ran(name: string, output: Log)

  /** A line that carries none of the run's markers. */
  predicate Quiet(line: Line, nonce: string) {
    line.kind.Plain? || line.kind.nonce != nonce
  }

  predicate AllQuiet(lines: Log, nonce: string) {
    forall i | 0 <= i < |lines| :: Quiet(lines[i], nonce)
  }

  const BLANK := Line("", Plain)

  /**
   * The log of a run from step `index` on: a marker before each step, its output, and an end
   * marker behind each that returned zero. The script stops at a step that did not, so only the
   * last may lack one; `tail` is what follows the last step.
   */
  function Rendered(steps: seq<Ran>, index: nat, nonce: string, stopped: bool, tail: Log): Log {
    if steps == [] then []
    else
      var mark := Line("", Mark(index, nonce, steps[0].name));
      if |steps| == 1 && stopped then [mark] + steps[0].output + tail
      else
        [mark] + steps[0].output + [Line("", EndMark(index, nonce))]
        + (if |steps| == 1 then tail else [BLANK] + Rendered(steps[1..], index + 1, nonce, stopped, tail))
  }

  /** The records such a run should leave. */
  function Expected(steps: seq<Ran>, index: nat, stopped: bool, tail: Log): seq<Step> {
    if steps == [] then []
    else
      var cut := |steps| == 1 && stopped;
      var output := if cut then Output(steps[0].output + tail, false) else Output(steps[0].output, true);
      [Step(index, steps[0].name, Last(output, MAX_STEP_CHARS), !cut, |output| > MAX_STEP_CHARS, 0)]
      + Expected(steps[1..], index + 1, stopped, tail)
  }

  lemma {:induction false} QuietLinesStartNothing(lines: Log, rest: Log, nonce: string, last: Option<nat>)
    requires AllQuiet(lines, nonce)
    ensures NextStart(lines + rest, nonce, last) == |lines| + NextStart(rest, nonce, last)
  {
    if lines == [] {
      assert lines + rest == rest;
    } else {
      assert (lines + rest)[1..] == lines[1..] + rest;
      QuietLinesStartNothing(lines[1..], rest, nonce, last);
    }
  }

  lemma {:induction false} QuietLinesEndNothing(lines: Log, rest: Log, nonce: string)
    requires AllQuiet(lines, nonce)
    ensures EndAt(lines + rest, nonce) == |lines| + EndAt(rest, nonce)
  {
    if lines == [] {
      assert lines + rest == rest;
    } else {
      assert (lines + rest)[1..] == lines[1..] + rest;
      QuietLinesEndNothing(lines[1..], rest, nonce);
    }
  }

  /** A run of one step that stopped in it leaves one record, cut off and not complete. */
  lemma AStoppedStep(step: Ran, index: nat, nonce: string, tail: Log, last: Option<nat>, finished: set<nat>)
    requires last.None? || last.value + 1 == index
    requires AllQuiet(tail, nonce) && AllQuiet(step.output, nonce) && index !in finished
    ensures
      var log := [Line("", Mark(index, nonce, step.name))] + step.output + tail;
      var output := Output(step.output + tail, false);
      var segment := Segment(log[0], log[1..], false);
      && NextStart(log, nonce, last) == 0
      && Segments(log, nonce, last) == [segment]
      && StepOf(segment, nonce, finished)
         == Step(index, step.name, Last(output, MAX_STEP_CHARS), false, |output| > MAX_STEP_CHARS, 0)
  {
    var log := [Line("", Mark(index, nonce, step.name))] + step.output + tail;
    var text := step.output + tail;
    assert log[1..] == text + [] && text + [] == text;
    QuietLinesStartNothing(text, [], nonce, Some(index));
    QuietLinesEndNothing(text, [], nonce);
    assert text[|text|..] == [] && text[..|text|] == text;
    assert Segments([], nonce, Some(index)) == [];
  }

  /** Where no end marker of a later number was printed, the records of a rendered run are its steps. */
  lemma {:induction false} RenderedSegments(steps: seq<Ran>, index: nat, nonce: string, stopped: bool, tail: Log,
                                            last: Option<nat>, finished: set<nat>)
    requires steps != [] && (last.None? || last.value + 1 == index)
    requires AllQuiet(tail, nonce) && forall i | 0 <= i < |steps| :: AllQuiet(steps[i].output, nonce)
    requires stopped ==> index + |steps| - 1 !in finished
    ensures
      var log := Rendered(steps, index, nonce, stopped, tail);
      var segments := Segments(log, nonce, last);
      && NextStart(log, nonce, last) == 0
      && |segments| == |steps| == |Expected(steps, index, stopped, tail)|
      && forall i | 0 <= i < |steps| :: StepOf(segments[i], nonce, finished) == Expected(steps, index, stopped, tail)[i]
    decreases |steps|
  {
    hide Segments, NextStart, StepOf, Output, EndAt;
    var log := Rendered(steps, index, nonce, stopped, tail);
    var mark, output := Line("", Mark(index, nonce, steps[0].name)), steps[0].output;
    var end := [Line("", EndMark(index, nonce))];
    assert Expected([], index + 1, stopped, tail) == [];
    if |steps| == 1 && stopped {
      AStoppedStep(steps[0], index, nonce, tail, last, finished);
    } else if |steps| == 1 {
      assert log == [mark] + (output + ((end + tail) + []));
      AStepUpToTheEnd(mark, output, end + tail, [], nonce, last);
      ASegmentThatEnded(Segment(mark, output + (end + tail), false), output, tail, nonce, finished);
      NoLinesNoSegments(nonce, Some(index));
    } else {
      var rest := Rendered(steps[1..], index + 1, nonce, stopped, tail);
      RenderedSegments(steps[1..], index + 1, nonce, stopped, tail, Some(index), finished);
      assert log == [mark] + (output + ((end + [BLANK]) + rest));
      AStepUpToTheEnd(mark, output, end + [BLANK], rest, nonce, last);
      ASegmentThatEnded(Segment(mark, output + (end + [BLANK]), true), output, [BLANK], nonce, finished);
    }
  }

  lemma ASegmentThatEnded(segment: Segment, output: Log, gap: Log, nonce: string, finished: set<nat>)
    requires segment.mark.kind.Mark? && AllQuiet(output, nonce)
    requires segment.body == output + ([Line("", EndMark(segment.mark.kind.index, nonce))] + gap)
    ensures
      var text := Output(output, true);
      StepOf(segment, nonce, finished)
      == Step(segment.mark.kind.index, segment.mark.kind.name, Last(text, MAX_STEP_CHARS), true,
              |text| > MAX_STEP_CHARS, 0)
  {
    var end := [Line("", EndMark(segment.mark.kind.index, nonce))] + gap;
    QuietLinesEndNothing(output, end, nonce);
    assert segment.body[..|output|] == output;
  }

  lemma NoLinesNoSegments(nonce: string, last: Option<nat>)
    ensures Segments([], nonce, last) == [] && NextStart([], nonce, last) == 0
  {
  }

  lemma CutBetween(mark: Line, body: Log, rest: Log, nonce: string, last: Option<nat>)
    requires Starts(mark, nonce, last)
    requires NextStart(body + rest, nonce, Some(mark.kind.index)) == |body|
    ensures NextStart([mark] + (body + rest), nonce, last) == 0
    ensures FirstCut([mark] + (body + rest), nonce, last) == Some(Cut(Segment(mark, body, rest != []), rest))
  {
    var after := body + rest;
    var log := [mark] + after;
    assert log[0] == mark && log[1..] == after;
    assert NextStart(log, nonce, last) == 0;
    hide NextStart, Starts;
    assert after[..|body|] == body && after[|body|..] == rest;
  }

  /** One marker, quiet lines, an end marker with what trails it, and then the next step or nothing. */
  lemma AStepUpToTheEnd(mark: Line, output: Log, trail: Log, rest: Log, nonce: string, last: Option<nat>)
    requires Starts(mark, nonce, last)
    requires AllQuiet(output, nonce) && trail != [] && trail[0].kind.EndMark? && AllQuiet(trail[1..], nonce)
    requires NextStart(rest, nonce, Some(mark.kind.index)) == 0
    ensures
      var log := [mark] + (output + (trail + rest));
      && NextStart(log, nonce, last) == 0
      && Segments(log, nonce, last)
         == [Segment(mark, output + trail, rest != [])] + Segments(rest, nonce, Some(mark.kind.index))
  {
    NoStartBefore(output, trail, rest, nonce, Some(mark.kind.index));
    hide NextStart, FirstCut, Starts;
    assert output + (trail + rest) == (output + trail) + rest;
    CutBetween(mark, output + trail, rest, nonce, last);
  }

  lemma NoStartBefore(output: Log, trail: Log, rest: Log, nonce: string, number: Option<nat>)
    requires AllQuiet(output, nonce) && trail != [] && trail[0].kind.EndMark? && AllQuiet(trail[1..], nonce)
    requires NextStart(rest, nonce, number) == 0
    ensures NextStart(output + (trail + rest), nonce, number) == |output| + |trail|
  {
    QuietLinesStartNothing(output, trail + rest, nonce, number);
    assert (trail + rest)[1..] == trail[1..] + rest;
    QuietLinesStartNothing(trail[1..], rest, nonce, number);
  }

  lemma {:induction false} OnlyRunStepsFinish(steps: seq<Ran>, index: nat, nonce: string, stopped: bool, tail: Log,
                                              number: nat, k: nat)
    requires steps != [] && AllQuiet(tail, nonce)
    requires forall i | 0 <= i < |steps| :: AllQuiet(steps[i].output, nonce)
    requires k < |Rendered(steps, index, nonce, stopped, tail)|
    requires Rendered(steps, index, nonce, stopped, tail)[k].kind == EndMark(number, nonce)
    ensures index <= number < index + |steps|
    ensures stopped ==> number != index + |steps| - 1
    decreases |steps|
  {
    var skipped := |steps[0].output| + 3;
    if |steps| > 1 && k >= skipped {
      var rest := Rendered(steps[1..], index + 1, nonce, stopped, tail);
      assert Rendered(steps, index, nonce, stopped, tail)[skipped..] == rest;
      OnlyRunStepsFinish(steps[1..], index + 1, nonce, stopped, tail, number, k - skipped);
    }
  }

  lemma {:induction false} ExpectedSteps(steps: seq<Ran>, index: nat, stopped: bool, tail: Log, i: nat)
    requires i < |steps|
    ensures
      var records := Expected(steps, index, stopped, tail);
      && |records| == |steps|
      && records[i].index == index + i
      && records[i].name == steps[i].name
      && (records[i].completed <==> !(stopped && i == |steps| - 1))
      && |records[i].output| <= MAX_STEP_CHARS && records[i].dropped == 0
    decreases |steps|
  {
    hide Output, Last;
    LastIsShort(if |steps| == 1 && stopped then Output(steps[0].output + tail, false)
                else Output(steps[0].output, true));
    if |steps| > 1 {
      ExpectedSteps(steps[1..], index + 1, stopped, tail, if i > 0 then i - 1 else 0);
    }
  }

  lemma LastIsShort(text: string)
    ensures |Last(text, MAX_STEP_CHARS)| <= MAX_STEP_CHARS
  {
  }

  /**
   * Reading back the log of any run whose output carries none of its markers gives the announced
   * steps, in order, each with its own output, all complete but the one the run stopped in.
   */
  lemma ARunReadsBackAsItsSteps(before: Log, steps: seq<Ran>, nonce: string, stopped: bool, tail: Log)
    requires steps != [] && AllQuiet(before, nonce) && AllQuiet(tail, nonce)
    requires forall i | 0 <= i < |steps| :: AllQuiet(steps[i].output, nonce)
    ensures AllSteps(before + Rendered(steps, 1, nonce, stopped, tail), nonce) == Expected(steps, 1, stopped, tail)
  {
    var rendered := Rendered(steps, 1, nonce, stopped, tail);
    var log := before + rendered;
    var finished := Finished(log, nonce);
    TheStoppedStepDidNotFinish(before, steps, nonce, stopped, tail);
    RenderedSegments(steps, 1, nonce, stopped, tail, None, finished);
    QuietLinesStartNothing(before, rendered, nonce, None);
    hide *;
    LeadingLinesAreSkipped(before, rendered, nonce);
    StepsOfSegments(log, nonce, Expected(steps, 1, stopped, tail));
  }

  lemma StepsOfSegments(log: Log, nonce: string, steps: seq<Step>)
    requires |Segments(log, nonce, None)| == |steps|
    requires forall i | 0 <= i < |steps| ::
               StepOf(Segments(log, nonce, None)[i], nonce, Finished(log, nonce)) == steps[i]
    ensures AllSteps(log, nonce) == steps
  {
    hide Segments, StepOf, Finished;
  }

  lemma TheStoppedStepDidNotFinish(before: Log, steps: seq<Ran>, nonce: string, stopped: bool, tail: Log)
    requires steps != [] && AllQuiet(before, nonce) && AllQuiet(tail, nonce)
    requires forall i | 0 <= i < |steps| :: AllQuiet(steps[i].output, nonce)
    ensures Rendered(steps, 1, nonce, stopped, tail) != []
    ensures stopped ==> |steps| !in Finished(before + Rendered(steps, 1, nonce, stopped, tail), nonce)
  {
    var log := before + Rendered(steps, 1, nonce, stopped, tail);
    if stopped && |steps| in Finished(log, nonce) {
      var k :| 0 <= k < |log| && log[k].kind == EndMark(|steps|, nonce);
      OnlyRunStepsFinish(steps, 1, nonce, stopped, tail, |steps|, k - |before|);
    }
  }

  lemma LeadingLinesAreSkipped(before: Log, log: Log, nonce: string)
    requires NextStart(before + log, nonce, None) == |before| && NextStart(log, nonce, None) == 0 && log != []
    ensures Segments(before + log, nonce, None) == Segments(log, nonce, None)
  {
    assert (before + log)[|before|] == log[0];
    assert (before + log)[|before| + 1..] == log[1..];
  }

  // ---- the log as it is read: the markers first, then the text between each and the next ----

  /** Where the steps of a log start, counted from line `from` of the whole. */
  function Positions(log: Log, nonce: string, last: Option<nat>, from: nat): seq<int>
    decreases |log|
  {
    match FirstCut(log, nonce, last)
    case None => []
    case Some(Cut(first, rest)) =>
      [from + |log| - |rest| - |first.body| - 1]
      + Positions(rest, nonce, Some(first.mark.kind.index), from + |log| - |rest|)
  }

  lemma NextStartBehindALine(line: Line, log: Log, nonce: string, last: Option<nat>)
    requires !Starts(line, nonce, last)
    ensures NextStart([line] + log, nonce, last) == NextStart(log, nonce, last) + 1
  {
    assert ([line] + log)[1..] == log;
  }

  lemma CutBehindALine(line: Line, log: Log, nonce: string, last: Option<nat>)
    requires !Starts(line, nonce, last)
    ensures FirstCut([line] + log, nonce, last) == FirstCut(log, nonce, last)
  {
    var whole, at := [line] + log, NextStart(log, nonce, last);
    NextStartBehindALine(line, log, nonce, last);
    if at < |log| { SliceBehindALine(line, log, at); }
    hide NextStart, Starts, CutBehind;
  }

  lemma SliceBehindALine(line: Line, log: Log, at: nat)
    requires at < |log|
    ensures ([line] + log)[at + 1] == log[at] && ([line] + log)[at + 2..] == log[at + 1..]
  {
  }

  lemma NoCutNoPositions(log: Log, nonce: string, last: Option<nat>, from: nat)
    requires FirstCut(log, nonce, last).None?
    ensures Positions(log, nonce, last, from) == []
  {
  }

  lemma {:induction false} PositionsOfACut(log: Log, cut: Cut, nonce: string, last: Option<nat>, from: nat)
    requires FirstCut(log, nonce, last) == Some(cut)
    ensures |cut.rest| < |log| && cut.first.mark.kind.Mark?
    ensures
      var behind := from + |log| - |cut.rest|;
      Positions(log, nonce, last, from)
      == [behind - |cut.first.body| - 1] + Positions(cut.rest, nonce, Some(cut.first.mark.kind.index), behind)
  {
    hide FirstCut;
  }

  lemma {:induction false} SameCutSamePositions(a: Log, b: Log, nonce: string, last: Option<nat>, fromA: nat,
                                                fromB: nat)
    requires FirstCut(a, nonce, last) == FirstCut(b, nonce, last) && fromA + |a| == fromB + |b|
    ensures Positions(a, nonce, last, fromA) == Positions(b, nonce, last, fromB)
  {
    hide FirstCut, Positions;
    match FirstCut(a, nonce, last)
    case None =>
      NoCutNoPositions(a, nonce, last, fromA);
      NoCutNoPositions(b, nonce, last, fromB);
    case Some(cut) =>
      PositionsOfACut(a, cut, nonce, last, fromA);
      PositionsOfACut(b, cut, nonce, last, fromB);
  }

  lemma {:induction false} PositionsBehindALine(line: Line, log: Log, nonce: string, last: Option<nat>, from: nat)
    requires !Starts(line, nonce, last)
    ensures Positions([line] + log, nonce, last, from) == Positions(log, nonce, last, from + 1)
  {
    CutBehindALine(line, log, nonce, last);
    hide *;
    SameCutSamePositions([line] + log, log, nonce, last, from, from + 1);
  }

  lemma {:induction false} PositionsBehindLines(lines: Log, log: Log, nonce: string, last: Option<nat>, from: nat)
    requires forall k | 0 <= k < |lines| :: !Starts(lines[k], nonce, last)
    ensures Positions(lines + log, nonce, last, from) == Positions(log, nonce, last, from + |lines|)
  {
    hide Positions, Starts;
    if lines == [] {
      assert lines + log == log;
    } else {
      assert lines + log == [lines[0]] + (lines[1..] + log);
      PositionsBehindALine(lines[0], lines[1..] + log, nonce, last, from);
      PositionsBehindLines(lines[1..], log, nonce, last, from + 1);
    }
  }

  lemma CutAtAStart(line: Line, log: Log, nonce: string, last: Option<nat>)
    requires Starts(line, nonce, last)
    ensures
      var size := NextStart(log, nonce, Some(line.kind.index));
      && FirstCut([line] + log, nonce, last) == Some(Cut(Segment(line, log[..size], size < |log|), log[size..]))
      && log[..size] + log[size..] == log
      && forall k | 0 <= k < size :: !Starts(log[..size][k], nonce, Some(line.kind.index))
  {
    var number := Some(line.kind.index);
    NoStepBefore(log, nonce, number);
    hide *;
    var size := NextStart(log, nonce, number);
    CutBetween(line, log[..size], log[size..], nonce, last);
  }

  lemma NoStepBefore(log: Log, nonce: string, last: Option<nat>)
    ensures
      var size := NextStart(log, nonce, last);
      log[..size] + log[size..] == log && forall k | 0 <= k < size :: !Starts(log[..size][k], nonce, last)
  {
    hide NextStart, Starts;
    var size := NextStart(log, nonce, last);
    assert forall k | 0 <= k < size :: log[..size][k] == log[k];
  }

  lemma {:induction false} PositionsOfAStartingCut(log: Log, cut: Cut, nonce: string, last: Option<nat>, from: nat)
    requires FirstCut([cut.first.mark] + log, nonce, last) == Some(cut) && cut.first.body + cut.rest == log
    requires cut.first.mark.kind.Mark?
    requires forall k | 0 <= k < |cut.first.body| ::
               !Starts(cut.first.body[k], nonce, Some(cut.first.mark.kind.index))
    ensures
      var number := Some(cut.first.mark.kind.index);
      Positions([cut.first.mark] + log, nonce, last, from) == [from] + Positions(log, nonce, number, from + 1)
  {
    hide *;
    PositionsBehindLines(cut.first.body, cut.rest, nonce, Some(cut.first.mark.kind.index), from + 1);
    PositionsOfACut([cut.first.mark] + log, cut, nonce, last, from);
  }

  lemma {:induction false} PositionsFromAStart(line: Line, log: Log, nonce: string, last: Option<nat>, from: nat)
    requires Starts(line, nonce, last)
    ensures Positions([line] + log, nonce, last, from)
         == [from] + Positions(log, nonce, Some(line.kind.index), from + 1)
  {
    CutAtAStart(line, log, nonce, last);
    var number := Some(line.kind.index);
    var size := NextStart(log, nonce, number);
    hide *;
    PositionsOfAStartingCut(log, Cut(Segment(line, log[..size], size < |log|), log[size..]), nonce, last, from);
  }

  // The lines behind the one at `mark`, up to `end`.
  function Between(log: Log, mark: int, end: int): Log {
    if 0 <= mark < end <= |log| then log[mark + 1..end] else []
  }

  function LineAt(log: Log, mark: int): Line {
    if 0 <= mark < |log| then log[mark] else BLANK
  }

  function EndOf(at: seq<int>, i: nat, end: int): int {
    if i + 1 < |at| then at[i + 1] else end
  }

  lemma StandsBetween(before: Log, log: Log, lead: Log, mark: Line, body: Log, rest: Log)
    requires log == lead + ([mark] + (body + rest))
    ensures
      var whole, end := before + log, |before| + |log| - |rest|;
      var at := end - |body| - 1;
      && |before| <= at < end <= |whole| && LineAt(whole, at) == mark && Between(whole, at, end) == body
      && whole[..end] + rest == whole
  {
    var whole, end := before + log, |before| + |log| - |rest|;
    var at := end - |body| - 1;
    assert whole[at] == mark;
    assert whole[at + 1..end] == body;
    assert whole[end..] == rest;
  }

  lemma TheCutStandsInTheLog(before: Log, log: Log, nonce: string, last: Option<nat>)
    requires FirstCut(log, nonce, last).Some?
    ensures
      var Cut(first, rest) := FirstCut(log, nonce, last).value;
      var end := |before| + |log| - |rest|;
      var mark := end - |first.body| - 1;
      && |before| <= mark < end <= |before + log|
      && LineAt(before + log, mark) == first.mark && Between(before + log, mark, end) == first.body
      && (before + log)[..end] + rest == before + log
  {
    var Cut(first, rest) := FirstCut(log, nonce, last).value;
    ACutLosesNoLine(log, nonce, last);
    StandsBetween(before, log, log[..NextStart(log, nonce, last)], first.mark, first.body, rest);
    hide *;
  }

  lemma {:induction false} PositionsAndTheCut(log: Log, nonce: string, last: Option<nat>, from: nat)
    requires FirstCut(log, nonce, last).Some?
    ensures
      var Cut(first, rest) := FirstCut(log, nonce, last).value;
      var behind := Positions(rest, nonce, Some(first.mark.kind.index), from);
      && (first.followed <==> behind != []) && (rest == [] <==> behind == [])
      && (behind != [] ==> behind[0] == from)
  {
    ACutEndsAtTheNextStep(log, nonce, last);
    var Cut(first, rest) := FirstCut(log, nonce, last).value;
    var number := Some(first.mark.kind.index);
    assert NextStart(rest, nonce, number) == 0;
    if rest != [] {
      assert rest == [rest[0]] + rest[1..];
      PositionsFromAStart(rest[0], rest[1..], nonce, number, from);
    } else {
      NothingCutNothingThere(rest, nonce, number);
    }
  }

  /** Each step is the line at its position and the lines from there to the next. */
  lemma {:induction false} SegmentsStandAtThePositions(before: Log, log: Log, nonce: string, last: Option<nat>, i: nat)
    requires i < |Segments(log, nonce, last)|
    ensures
      var at, whole := Positions(log, nonce, last, |before|), before + log;
      && |at| == |Segments(log, nonce, last)|
      && 0 <= at[i] < |whole|
      && (i + 1 == |at| || at[i + 1] < |whole|)
      && Segments(log, nonce, last)[i]
         == Segment(LineAt(whole, at[i]), Between(whole, at[i], EndOf(at, i, |whole|)), i + 1 < |at|)
    decreases |log|
  {
    hide NextStart, FirstCut, Starts, Between, LineAt;
    var Cut(first, rest) := FirstCut(log, nonce, last).value;
    var number, whole := Some(first.mark.kind.index), before + log;
    var end := |whole| - |rest|;
    TheCutStandsInTheLog(before, log, nonce, last);
    PositionsAndTheCut(log, nonce, last, end);
    CountOfPositions(log, nonce, last, |before|);
    if i > 0 {
      SegmentsStandAtThePositions(whole[..end], rest, nonce, number, i - 1);
    }
  }

  lemma {:induction false} CountOfPositions(log: Log, nonce: string, last: Option<nat>, from: nat)
    ensures |Positions(log, nonce, last, from)| == |Segments(log, nonce, last)|
    decreases |log|
  {
    hide FirstCut;
    if FirstCut(log, nonce, last).Some? {
      var Cut(first, rest) := FirstCut(log, nonce, last).value;
      CountOfPositions(rest, nonce, Some(first.mark.kind.index), from + (|log| - |rest|));
    }
  }

  /** Markers that really are steps: the first sets the sequence, each later one is the next number. */
  method Boundaries(log: Log, nonce: string) returns (kept: seq<int>)
    ensures kept == Positions(log, nonce, None, 0)
  {
    hide Positions;
    kept := [];
    var last: Option<nat> := None;
    assert log[0..] == log;
    for k := 0 to |log|
      invariant kept + Positions(log[k..], nonce, last, k) == Positions(log, nonce, None, 0)
    {
      var mark, behind := log[k].kind, log[k + 1..];
      assert log[k..] == [log[k]] + behind;
      if mark.Mark? && mark.nonce == nonce && (last.None? || mark.index == last.value + 1) {
        PositionsFromAStart(log[k], behind, nonce, last, k);
        kept, last := kept + [k], Some(mark.index);
      } else {
        PositionsBehindALine(log[k], behind, nonce, last, k);
      }
    }
    NoPositionsInNothing(nonce, last, |log|);
  }

  lemma NoPositionsInNothing(nonce: string, last: Option<nat>, from: nat)
    ensures Positions([], nonce, last, from) == []
  {
    NothingCutNothingThere([], nonce, last);
  }

  /** One record, from where its marker stands and where the next one does. */
  method ReadStep(log: Log, nonce: string, finished: set<nat>, mark: int, following: int) returns (step: Step)
    requires 0 <= mark < |log| && log[mark].kind.Mark?
    ensures step == StepOf(Segment(log[mark], Between(log, mark, following), following < |log|), nonce, finished)
  {
    var body := Between(log, mark, following);
    var end := EndAt(body, nonce);
    var output := Output(body[..end], end < |body| || following < |log|);
    step := Step(log[mark].kind.index, log[mark].kind.name, Last(output, MAX_STEP_CHARS),
                 end < |body| || log[mark].kind.index in finished || following < |log|,
                 |output| > MAX_STEP_CHARS, 0);
  }

  /** The records a device builds from its log. */
  method ParseSteps(log: Log, nonce: string) returns (steps: seq<Step>)
    ensures steps == Trim(AllSteps(log, nonce))
  {
    hide Positions, Segments, StepOf, Between, Trim;
    var marks := Boundaries(log, nonce);
    CountOfPositions(log, nonce, None, 0);
    var finished := Finished(log, nonce);
    steps := [];
    for k := 0 to |marks|
      invariant steps == AllSteps(log, nonce)[..k]
    {
      SegmentsStandAtThePositions([], log, nonce, None, k);
      assert [] + log == log;
      var following := if k + 1 < |marks| then marks[k + 1] else |log|;
      var step := ReadStep(log, nonce, finished, marks[k], following);
      assert step == AllSteps(log, nonce)[k];
      steps := steps + [step];
    }
    assert steps == AllSteps(log, nonce);
    steps := WithinBudget(steps);
  }

  /** Scan from the back for a step that is not complete. */
  method UnfinishedStep(steps: seq<Step>) returns (found: Option<Step>)
    ensures found.None? ==> forall k | 0 <= k < |steps| :: steps[k].completed
    ensures found.Some? ==>
              exists k :: (&& 0 <= k < |steps| && steps[k] == found.value && !steps[k].completed
                           && forall j | k < j < |steps| :: steps[j].completed)
  {
    var k := |steps|;
    while k > 0
      invariant 0 <= k <= |steps| && forall j | k <= j < |steps| :: steps[j].completed
    {
      k := k - 1;
      if !steps[k].completed {
        return Some(steps[k]);
      }
    }
    return None;
  }
}
