/** The progress multiplexer: a tool runs as a task and reports lines through a queue, while the consumer waits
    for "task or next line", whichever is ready first. Every interleaving of the scheduler is a sequence of the
    steps below; the task and a queue item may become ready together. */
module ProgressMux {
  import opened Basics

  /** The consumer's pending `queue.get()`. */
  datatype Getter = NoGetter | Waiting | Took(line: string)
  datatype Position = LoopHead | Selecting | Draining | Finished
  datatype Outcome<T> = Returned(value: T) | Raised
  datatype Emission<T> = Progress(line: string) | Final(outcome: Outcome<T>)

  datatype State<T> = State(
    toPut: seq<string>,      // lines the tool has still to report
    outcome: Outcome<T>,     // how the tool will end
    taskDone: bool,
    queue: seq<string>,
    getter: Getter,
    at: Position,
    out: seq<Emission<T>>)

  datatype Step = ToolPuts | ToolEnds | GetterTakes | LoopTest | Resume | Drain

  function Initial<T>(lines: seq<string>, outcome: Outcome<T>): State<T> {
    State(lines, outcome, false, [], NoGetter, LoopHead, [])
  }

  predicate Enabled<T>(s: State<T>, step: Step) {
    match step
    case ToolPuts => !s.taskDone && s.toPut != []
    case ToolEnds => !s.taskDone && s.toPut == []
    case GetterTakes => s.getter == Waiting && s.queue != []
    case LoopTest => s.at == LoopHead
    case Resume => s.at == Selecting && (s.taskDone || s.getter.Took?)
    case Drain => s.at == Draining
  }

  function Next<T>(s: State<T>, step: Step): State<T>
    requires Enabled(s, step)
  {
    match step
    case ToolPuts => s.(toPut := s.toPut[1..], queue := s.queue + [s.toPut[0]])
    case ToolEnds => s.(taskDone := true)
    case GetterTakes => s.(getter := Took(s.queue[0]), queue := s.queue[1..])
    case LoopTest => if s.taskDone then s.(at := Draining) else s.(getter := Waiting, at := Selecting)
    case Resume =>
      // A getter that has not taken its line yet is cancelled, which leaves the line in the queue.
      if s.getter.Took? then s.(out := s.out + [Progress(s.getter.line)], getter := NoGetter, at := LoopHead)
      else s.(getter := NoGetter, at := LoopHead)
    case Drain =>
      if s.queue != [] then s.(out := s.out + [Progress(s.queue[0])], queue := s.queue[1..])
      else s.(out := s.out + [Final(s.outcome)], at := Finished)
  }

  predicate IsRun<T>(s: State<T>, steps: seq<Step>)
    decreases |steps|
  {
    steps != [] ==> Enabled(s, steps[0]) && IsRun(Next(s, steps[0]), steps[1..])
  }

  function After<T>(s: State<T>, steps: seq<Step>): State<T>
    requires IsRun(s, steps)
    decreases |steps|
  {
    if steps == [] then s else After(Next(s, steps[0]), steps[1..])
  }

  function AsProgress<T>(lines: seq<string>): (out: seq<Emission<T>>)
    ensures |out| == |lines| && forall i :: 0 <= i < |lines| ==> out[i] == Progress(lines[i])
  {
    seq(|lines|, i requires 0 <= i < |lines| => Progress(lines[i]))
  }

  function InHand(g: Getter): seq<string> {
    if g.Took? then [g.line] else []
  }

  /** Every line is in exactly one place: emitted, in the getter's hand, queued, or still to be reported. */
  ghost predicate Conserved<T>(lines: seq<string>, outcome: Outcome<T>, s: State<T>, emitted: seq<string>) {
    && s.outcome == outcome
    && (s.taskDone ==> s.toPut == [])
    && (s.getter == NoGetter <==> s.at != Selecting)
    && (s.at == Draining || s.at == Finished ==> s.taskDone)
    && (s.at == Finished ==> s.queue == [])
    && s.out == AsProgress(emitted) + (if s.at == Finished then [Final(outcome)] else [])
    && lines == emitted + InHand(s.getter) + s.queue + s.toPut
  }

  lemma StepConserves<T>(lines: seq<string>, outcome: Outcome<T>, s: State<T>, step: Step, emitted: seq<string>)
    returns (said: seq<string>)
    requires Conserved(lines, outcome, s, emitted) && Enabled(s, step)
    ensures Conserved(lines, outcome, Next(s, step), said)
  {
    said := emitted;
    hide AsProgress;
    if step == Resume && s.getter.Took? {
      said := emitted + [s.getter.line];
    } else if step == Drain && s.queue != [] {
      said := emitted + [s.queue[0]];
      assert s.queue == [s.queue[0]] + s.queue[1..];
    } else {
    }
  }

  /** A bound on the steps that remain. */
  function Rank<T>(s: State<T>): nat {
    5 * |s.toPut| + 4 * |s.queue| + (if s.getter.Took? then 3 else 0) + (if s.taskDone then 0 else 1) +
    match s.at
    case LoopHead => if s.taskDone then 2 else 4
    case Selecting => 3
    case Draining => 1
    case Finished => 0
  }

  lemma StepLowersRank<T>(s: State<T>, step: Step)
    requires Enabled(s, step)
    ensures Rank(Next(s, step)) < Rank(s)
  {}

  lemma SomeStepIsEnabled<T>(s: State<T>)
    requires s.getter == NoGetter <==> s.at != Selecting
    requires s.at != Finished
    ensures exists step :: Enabled(s, step)
  {
    var step :=
      if s.at == LoopHead then LoopTest
      else if s.at == Draining then Drain
      else if s.taskDone || s.getter.Took? then Resume
      else if s.queue != [] then GetterTakes
      else if s.toPut != [] then ToolPuts else ToolEnds;
    assert Enabled(s, step);
  }

  lemma {:induction false} RunConserves<T>(lines: seq<string>, outcome: Outcome<T>, s: State<T>, steps: seq<Step>,
                                           emitted: seq<string>) returns (said: seq<string>)
    requires Conserved(lines, outcome, s, emitted) && IsRun(s, steps)
    ensures Conserved(lines, outcome, After(s, steps), said)
    ensures |steps| + Rank(After(s, steps)) <= Rank(s)
    decreases |steps|
  {
    if steps == [] {
      said := emitted;
    } else {
      said := StepConserves(lines, outcome, s, steps[0], emitted);
      StepLowersRank(s, steps[0]);
      said := RunConserves(lines, outcome, Next(s, steps[0]), steps[1..], said);
    }
  }

  /** Under every interleaving: at any time the consumer has seen a prefix of the lines, in put order; no run goes
      on for ever; a run that cannot continue has finished; and a finished one emitted every line exactly once and
      then the tool's result (or its exception), last. */
  lemma EveryRunDelivers<T>(lines: seq<string>, outcome: Outcome<T>, steps: seq<Step>)
    requires IsRun(Initial(lines, outcome), steps)
    ensures var s := After(Initial(lines, outcome), steps);
            && |steps| <= 5 * |lines| + 5
            && ((forall step :: !Enabled(s, step)) ==> s.at == Finished)
            && (s.at == Finished ==> s.out == AsProgress(lines) + [Final(outcome)])
            && (s.at != Finished ==> s.out <= AsProgress(lines))
  {
    hide IsRun, After, Conserved, Rank, Initial;
    StartIsConserved(lines, outcome);
    var said := RunConserves(lines, outcome, Initial(lines, outcome), steps, []);
    ConservedMeans(lines, outcome, After(Initial(lines, outcome), steps), said);
  }

  lemma StartIsConserved<T>(lines: seq<string>, outcome: Outcome<T>)
    ensures Conserved(lines, outcome, Initial(lines, outcome), [])
    ensures Rank(Initial(lines, outcome)) == 5 * |lines| + 5
  {}

  lemma ConservedMeans<T>(lines: seq<string>, outcome: Outcome<T>, s: State<T>, said: seq<string>)
    requires Conserved(lines, outcome, s, said)
    ensures (forall step :: !Enabled(s, step)) ==> s.at == Finished
    ensures s.at == Finished ==> s.out == AsProgress(lines) + [Final(outcome)]
    ensures s.at != Finished ==> s.out <= AsProgress(lines)
  {
    var rest := InHand(s.getter) + s.queue + s.toPut;
    assert lines == said + rest;
    if s.at != Finished {
      SomeStepIsEnabled(s);
    }
  }
}
