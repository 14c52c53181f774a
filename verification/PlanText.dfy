/** Implementation plans: code blocks are printed from files into fenced blocks, and the parity checker parses the
    plan back. */
module PlanText {
  import opened Basics

  // ---- lines --------------------------------------------------------------------------

  /** text.split("\n") */
  function Lines(s: string): (ls: seq<string>)
    ensures |ls| > 0
    ensures forall l :: l in ls ==> '\n' !in l
  {
    if s == "" then [""]
    else
      var rest := Lines(s[1..]);
      if s[0] == '\n' then [""] + rest else [[s[0]] + rest[0]] + rest[1..]
  }

  /** "\n".join(lines) */
  function JoinLines(ls: seq<string>): string {
    if ls == [] then "" else if |ls| == 1 then ls[0] else ls[0] + "\n" + JoinLines(ls[1..])
  }

  lemma {:induction false} LinesOfConcat(a: string, b: string)
    ensures Lines(a + "\n" + b) == Lines(a) + Lines(b)
  {
    var s := a + "\n" + b;
    assert Lines("") == [""];
    hide Lines;
    JoinedTail(a, b);
    if a == "" {
    } else {
      LinesOfConcat(a[1..], b);
      LongerFirst(a[0], Lines(a[1..]), Lines(b));
    }
  }

  lemma JoinedTail(a: string, b: string)
    ensures var s := a + "\n" + b;
            if a == "" then s[0] == '\n' && s[1..] == b else s[0] == a[0] && s[1..] == a[1..] + "\n" + b
  {}

  lemma LongerFirst(c: char, front: seq<string>, back: seq<string>)
    requires front != []
    ensures [[c] + (front + back)[0]] + (front + back)[1..] == [[c] + front[0]] + front[1..] + back
    ensures [""] + (front + back) == [""] + front + back
  {
    assert (front + back)[1..] == front[1..] + back;
  }

  lemma {:induction false} JoinThenSplit(s: string)
    ensures JoinLines(Lines(s)) == s
  {
    if s == "" {
    } else {
      JoinThenSplit(s[1..]);
      var rest := Lines(s[1..]);
      if s[0] == '\n' {
        assert Lines(s)[1..] == rest;
      } else {
        assert Lines(s)[1..] == rest[1..];
      }
    }
  }

  lemma {:induction false} PlainLine(s: string)
    requires '\n' !in s
    ensures Lines(s) == [s]
  {
    if s == "" {
    } else {
      assert s[0] in s && forall k :: 0 <= k < |s[1..]| ==> s[1..][k] == s[k + 1] && s[k + 1] in s;
      PlainLine(s[1..]);
      assert [s[0]] + s[1..] == s;
    }
  }

  // ---- printing --------------------------------------------------------------------------

  const FENCE := "```"

  /** A file as a fenced block. */
  function Whole(lang: string, text: string): string {
    FENCE + lang + "\n" + TrimRight(text) + "\n" + FENCE
  }

  /** What a plan is made of: task titles, step headers, lines of prose (blank ones included) and files or slices of
      files. */
  datatype Part = Title(line: string) | Header(line: string) | Prose(line: string) | Code(lang: string, text: string)

  function PartText(p: Part): string {
    match p
    case Code(lang, text) => Whole(lang, text)
    case _ => p.line
  }

  /** The parts one below the other. */
  function PlanOf(parts: seq<Part>): string {
    if parts == [] then ""
    else if |parts| == 1 then PartText(parts[0])
    else PartText(parts[0]) + "\n" + PlanOf(parts[1..])
  }

  // ---- parsing ------------------------------------------------------------------------------

  type Path = string
  /** What the first word of a step header says it does to its files. */
  datatype Verb = WholeFile | Partial | Other

  /** What the line patterns recognise: word characters, task headers and step headers; and of a header its verb and the
      paths it names. */
  datatype Grammar = Grammar(isWord: char -> bool, taskOf: string -> Option<nat>, stepOf: string -> Option<string>,
                             verbOf: string -> Verb, pathsIn: string -> seq<Path>) {
    ghost predicate Sane() {
      && (forall c :: isWord(c) ==> !IsSpace(c) && c != '`')
      && taskOf("") == None && stepOf("") == None
    }
  }

  datatype Block = Block(lang: string, body: string)
  datatype Step = Step(task: nat, header: string, verb: Verb, paths: seq<Path>, prose: string, blocks: seq<Block>)
  datatype Opened = Opened(indent: string, lang: string)

  /** `current` says whether the last step still takes blocks and prose. */
  datatype State = State(steps: seq<Step>, task: nat, current: bool, fence: Option<Opened>, buf: seq<string>)

  const START := State([], 0, false, None, [])

  function WordEnd(g: Grammar, s: string, i: nat): (j: nat)
    requires i <= |s|
    ensures i <= j <= |s| && (j < |s| ==> !g.isWord(s[j]))
    ensures forall k :: i <= k < j ==> g.isWord(s[k])
    decreases |s| - i
  {
    if i < |s| && g.isWord(s[i]) then WordEnd(g, s, i + 1) else i
  }

  /** `^(\s*)```(\w*)\s*$` */
  function FenceOf(g: Grammar, line: string): Option<Opened> {
    var i := SkipSpaces(line, 0);
    if i + 3 <= |line| && line[i..i + 3] == FENCE then
      var j := WordEnd(g, line, i + 3);
      if SkipSpaces(line, j) == |line| then Some(Opened(line[..i], line[i + 3..j])) else None
    else None
  }

  predicate Closes(g: Grammar, line: string, open: Opened) {
    var f := FenceOf(g, line);
    f.Some? && f.value.lang == "" && |f.value.indent| == |open.indent|
  }

  function Lower(s: string): (r: string)
    ensures |r| == |s|
    ensures forall i :: 0 <= i < |s| ==>
              if 'A' <= s[i] <= 'Z' then 'a' <= r[i] <= 'z' && r[i] as int - 'a' as int == s[i] as int - 'A' as int
              else r[i] == s[i]
  {
    seq(|s|, i requires 0 <= i < |s| => if 'A' <= s[i] <= 'Z' then s[i] + 32 as char else s[i])
  }

  /** A step as its header line opens it. */
  function NewStep(g: Grammar, task: nat, header: string): Step {
    Step(task, header, g.verbOf(header), g.pathsIn(header), "", [])
  }

  /** More prose and blocks for the last step. */
  function Grow(steps: seq<Step>, prose: string, blocks: seq<Block>): seq<Step>
    requires steps != []
  {
    var last := steps[|steps| - 1];
    steps[..|steps| - 1] + [last.(prose := last.prose + prose, blocks := last.blocks + blocks)]
  }

  /** One line. */
  function Feed(g: Grammar, s: State, line: string): State {
    if s.fence.Some? then
      if Closes(g, line, s.fence.value) then
        var block := Block(s.fence.value.lang, JoinLines(s.buf));
        s.(steps := if s.current && s.steps != [] then Grow(s.steps, "", [block]) else s.steps,
           fence := None, buf := [])
      else
        var indent := s.fence.value.indent;
        s.(buf := s.buf + [if indent <= line then line[|indent|..] else line])
    else if FenceOf(g, line).Some? then
      s.(fence := Some(FenceOf(g, line).value.(lang := Lower(FenceOf(g, line).value.lang))))
    else if g.taskOf(line).Some? then s.(task := g.taskOf(line).value, current := false)
    else if g.stepOf(line).Some? then
      s.(steps := s.steps + [NewStep(g, s.task, g.stepOf(line).value)], current := true)
    else if s.current && s.steps != [] then
      s.(steps := Grow(s.steps, line + "\n", []))
    else s
  }

  function Run(g: Grammar, s: State, lines: seq<string>): State
    decreases |lines|
  {
    if lines == [] then s else Run(g, Feed(g, s, lines[0]), lines[1..])
  }

  /** Parsing a plan gives back what was printed (see StepsOf). */
  method Parse(g: Grammar, plan: string) returns (steps: seq<Step>)
    ensures steps == Run(g, START, Lines(plan)).steps
    ensures forall parts :: g.Sane() && parts != [] && Printable(g, parts) && plan == PlanOf(parts) ==>
              steps == StepsOf(g, 0, parts)
  {
    forall parts | g.Sane() && parts != [] && Printable(g, parts) && plan == PlanOf(parts)
      ensures Run(g, START, Lines(plan)).steps == StepsOf(g, 0, parts)
    {
      PlanRoundTrip(g, parts);
    }
    var lines := Lines(plan);
    var s := START;
    for i := 0 to |lines|
      invariant Run(g, s, lines[i..]) == Run(g, START, lines)
    {
      assert lines[i..][1..] == lines[i + 1..];
      s := Feed(g, s, lines[i]);
    }
    return s.steps;
  }

  lemma {:induction false} RunConcat(g: Grammar, s: State, a: seq<string>, b: seq<string>)
    ensures Run(g, s, a + b) == Run(g, Run(g, s, a), b)
    decreases |a|
  {
    hide Feed;
    if a == [] {
      assert a + b == b;
    } else {
      assert (a + b)[1..] == a[1..] + b;
      RunConcat(g, Feed(g, s, a[0]), a[1..], b);
    }
  }

  lemma RunOne(g: Grammar, s: State, a: string)
    ensures Run(g, s, [a]) == Feed(g, s, a)
  {}

  lemma RunNone(g: Grammar, s: State)
    ensures Run(g, s, []) == s
  {}

  lemma RunFirst(g: Grammar, s: State, a: string, rest: seq<string>)
    ensures Run(g, s, [a] + rest) == Run(g, Feed(g, s, a), rest)
  {}

  // ---- what comes back -----------------------------------------------------------------------------

  /** A line that closes a fence opened at column 0. */
  predicate BareFence(g: Grammar, line: string) {
    Closes(g, line, Opened("", ""))
  }

  predicate NoBareFence(g: Grammar, text: string) {
    forall l :: l in Lines(text) ==> !BareFence(g, l)
  }

  /** A language tag as the generator writes them. */
  ghost predicate Tag(g: Grammar, lang: string) {
    Lower(lang) == lang && '\n' !in lang && forall c :: c in lang ==> g.isWord(c)
  }

  lemma OpeningFence(g: Grammar, lang: string)
    requires g.Sane() && Tag(g, lang)
    ensures FenceOf(g, FENCE + lang) == Some(Opened("", lang))
  {
    var line := FENCE + lang;
    assert line[0..3] == FENCE && line[3..|line|] == lang && line[..0] == "";
    forall k | 3 <= k < |line| ensures g.isWord(line[k]) {
      assert line[k] == lang[k - 3] && lang[k - 3] in lang;
    }
    WordToTheEnd(g, line, 3);
    hide SkipSpaces, WordEnd;
    assert SkipSpaces(line, |line|) == |line|;
  }

  lemma WordToTheEnd(g: Grammar, s: string, i: nat)
    requires i <= |s| && forall k :: i <= k < |s| ==> g.isWord(s[k])
    ensures WordEnd(g, s, i) == |s|
  {}

  lemma ClosingFence(g: Grammar)
    requires g.Sane()
    ensures BareFence(g, FENCE)
  {}

  lemma CollectLine(g: Grammar, s: State, line: string, lang: string)
    requires s.fence == Some(Opened("", lang)) && !BareFence(g, line)
    ensures Feed(g, s, line) == s.(buf := s.buf + [line])
  {
    assert line[0..] == line;
  }

  /** Inside a fence opened at column 0, lines that do not close it are collected as they are. */
  lemma {:induction false} CollectLines(g: Grammar, s: State, lines: seq<string>, lang: string)
    requires s.fence == Some(Opened("", lang)) && forall l :: l in lines ==> !BareFence(g, l)
    ensures Run(g, s, lines) == s.(buf := s.buf + lines)
    decreases |lines|
  {
    RunNone(g, s);
    hide Feed, BareFence, Run;
    if lines == [] {
      assert s.buf + [] == s.buf;
    } else {
      var l, rest := lines[0], lines[1..];
      assert l in lines && lines == [l] + rest;
      CollectLine(g, s, l, lang);
      RunFirst(g, s, l, rest);
      CollectLines(g, s.(buf := s.buf + [l]), rest, lang);
      assert s.buf + [l] + rest == s.buf + lines;
    }
  }

  function WholeLines(lang: string, text: string): seq<string> {
    [FENCE + lang] + Lines(TrimRight(text)) + [FENCE]
  }

  lemma LinesOfWhole(lang: string, text: string)
    requires '\n' !in lang
    ensures Lines(Whole(lang, text)) == WholeLines(lang, text)
  {
    var head, body := FENCE + lang, TrimRight(text);
    assert Whole(lang, text) == (head + "\n" + body) + "\n" + FENCE;
    LinesOfConcat(head + "\n" + body, FENCE);
    LinesOfConcat(head, body);
    PlainLine(head);
    PlainLine(FENCE);
  }

  /** A block is recorded under the current step, if there is one. */
  function WithBlock(s: State, block: Block): State {
    if s.current && s.steps != [] then s.(steps := Grow(s.steps, "", [block])) else s
  }

  /** A printed file is recorded under the current step (if there is one), word for word up to trailing white space. */
  lemma WholeRoundTrip(g: Grammar, s: State, lang: string, text: string)
    requires g.Sane() && Tag(g, lang) && NoBareFence(g, TrimRight(text)) && s.fence == None && s.buf == []
    ensures Run(g, s, WholeLines(lang, text)) == WithBlock(s, Block(lang, TrimRight(text)))
  {
    hide FenceOf, Feed, Lines, TrimRight, Grow;
    var body := Lines(TrimRight(text));
    JoinThenSplit(TrimRight(text));
    var inside := s.(fence := Some(Opened("", lang)));
    OpenFence(g, s, lang);
    assert WholeLines(lang, text) == [FENCE + lang] + (body + [FENCE]);
    RunFirst(g, s, FENCE + lang, body + [FENCE]);
    RunConcat(g, inside, body, [FENCE]);
    CollectLines(g, inside, body, lang);
    var full := inside.(buf := body);
    assert [] + body == body;
    RunOne(g, full, FENCE);
    CloseFence(g, full, FENCE);
  }

  lemma OpenFence(g: Grammar, s: State, lang: string)
    requires g.Sane() && Tag(g, lang) && s.fence == None
    ensures Feed(g, s, FENCE + lang) == s.(fence := Some(Opened("", lang)))
  {
    OpeningFence(g, lang);
  }

  lemma CloseFence(g: Grammar, s: State, line: string)
    requires g.Sane() && s.fence.Some? && s.fence.value.indent == ""
    requires line == FENCE || BareFence(g, line)
    ensures Feed(g, s, line) == WithBlock(s.(fence := None, buf := []), Block(s.fence.value.lang, JoinLines(s.buf)))
  {}

  /** What a header line is recognised as. */
  ghost predicate IsStepHeader(g: Grammar, line: string) {
    '\n' !in line && FenceOf(g, line) == None && g.taskOf(line) == None && g.stepOf(line).Some?
  }

  /** Each part is what its kind says: a title or header is recognised as one, prose as neither and no fence, and a
      printed text holds no line that would close its fence. */
  ghost predicate PartPrintable(g: Grammar, p: Part) {
    match p
    case Title(line) => '\n' !in line && FenceOf(g, line) == None && g.taskOf(line).Some?
    case Header(line) => IsStepHeader(g, line)
    case Prose(line) => '\n' !in line && FenceOf(g, line) == None && g.taskOf(line) == None && g.stepOf(line) == None
    case Code(lang, text) => Tag(g, lang) && NoBareFence(g, TrimRight(text))
  }

  ghost predicate Printable(g: Grammar, parts: seq<Part>) {
    forall p :: p in parts ==> PartPrintable(g, p)
  }

  // ---- what a plan says ------------------------------------------------------------------------------------

  /** The prose up to the next header or title. */
  function ProseOf(parts: seq<Part>): string {
    if parts == [] || parts[0].Title? || parts[0].Header? then ""
    else (if parts[0].Prose? then parts[0].line + "\n" else "") + ProseOf(parts[1..])
  }

  /** The files up to the next header or title, each up to trailing white space. */
  function BlocksOf(parts: seq<Part>): seq<Block> {
    if parts == [] || parts[0].Title? || parts[0].Header? then []
    else (if parts[0].Code? then [Block(parts[0].lang, TrimRight(parts[0].text))] else []) + BlocksOf(parts[1..])
  }

  /** One step per header, with the number of the last title above it and everything that follows up to the next header
      or title. */
  function StepsOf(g: Grammar, task: nat, parts: seq<Part>): seq<Step>
    decreases |parts|
  {
    if parts == [] then []
    else
      var rest := parts[1..];
      match parts[0]
      case Title(line) => StepsOf(g, if g.taskOf(line).Some? then g.taskOf(line).value else task, rest)
      case Header(line) =>
        if g.stepOf(line).None? then StepsOf(g, task, rest)
        else
          var header := g.stepOf(line).value;
          [Step(task, header, g.verbOf(header), g.pathsIn(header), ProseOf(rest), BlocksOf(rest))]
            + StepsOf(g, task, rest)
      case _ => StepsOf(g, task, rest)
  }

  // ---- printing and parsing back -----------------------------------------------------------------------------

  function PartLines(p: Part): seq<string> {
    match p
    case Code(lang, text) => WholeLines(lang, text)
    case _ => [p.line]
  }

  function PlanLines(parts: seq<Part>): seq<string> {
    if parts == [] then [] else PartLines(parts[0]) + PlanLines(parts[1..])
  }

  lemma LinesOfPart(g: Grammar, p: Part)
    requires PartPrintable(g, p)
    ensures Lines(PartText(p)) == PartLines(p)
  {
    hide FenceOf, Lines;
    match p
    case Code(lang, text) => LinesOfWhole(lang, text);
    case _ => PlainLine(p.line);
  }

  lemma {:induction false} LinesOfPlan(g: Grammar, parts: seq<Part>)
    requires Printable(g, parts) && parts != []
    ensures Lines(PlanOf(parts)) == PlanLines(parts)
  {
    hide PartPrintable, Lines, PartText, PartLines;
    assert parts[0] in parts;
    LinesOfPart(g, parts[0]);
    if |parts| > 1 {
      LinesOfPlan(g, parts[1..]);
      LinesOfConcat(PartText(parts[0]), PlanOf(parts[1..]));
    } else {
      assert PlanLines(parts[1..]) == [];
    }
  }

  /** What one part does to the parser. */
  function AfterPart(g: Grammar, s: State, p: Part): State
    requires s.current ==> s.steps != []
  {
    match p
    case Title(line) => s.(task := if g.taskOf(line).Some? then g.taskOf(line).value else s.task, current := false)
    case Header(line) =>
      if g.stepOf(line).Some? then s.(steps := s.steps + [NewStep(g, s.task, g.stepOf(line).value)], current := true)
      else s
    case Prose(line) => if s.current then s.(steps := Grow(s.steps, line + "\n", [])) else s
    case Code(lang, text) => if s.current then s.(steps := Grow(s.steps, "", [Block(lang, TrimRight(text))])) else s
  }

  lemma PartRoundTrip(g: Grammar, s: State, p: Part)
    requires g.Sane() && PartPrintable(g, p) && s.fence == None && s.buf == [] && (s.current ==> s.steps != [])
    ensures Run(g, s, PartLines(p)) == AfterPart(g, s, p)
  {
    hide FenceOf, WholeLines, TrimRight, Run, Grow;
    match p
    case Code(lang, text) => WholeRoundTrip(g, s, lang, text);
    case _ => RunOne(g, s, p.line);
  }

  /** The steps after a stretch of parts: the current step grows up to the next header or title, the others follow. */
  lemma {:induction false} RunPlan(g: Grammar, s: State, parts: seq<Part>)
    requires g.Sane() && Printable(g, parts) && s.fence == None && s.buf == [] && (s.current ==> s.steps != [])
    ensures Run(g, s, PlanLines(parts)).steps ==
            (if s.current then Grow(s.steps, ProseOf(parts), BlocksOf(parts)) else s.steps) + StepsOf(g, s.task, parts)
    decreases |parts|
  {
    RunNone(g, s);
    hide Run, PartPrintable, PartLines, TrimRight, Grow;
    if parts == [] {
      GrowNothing(s);
    } else {
      var p, rest := parts[0], parts[1..];
      assert p in parts;
      PrintedFacts(g, p);
      RunConcat(g, s, PartLines(p), PlanLines(rest));
      PartRoundTrip(g, s, p);
      var next := AfterPart(g, s, p);
      NextSteps(g, s, p);
      if s.current {
        GrowTwice(s.steps, ProseOf(rest), BlocksOf(rest));
      }
      RunPlan(g, next, rest);
      if p.Header? {
        GrowNew(s.steps, NewStep(g, s.task, g.stepOf(p.line).value), ProseOf(rest), BlocksOf(rest));
      }
      if s.current {
        GrowNothing(s);
      }
    }
  }

  lemma PrintedFacts(g: Grammar, p: Part)
    requires PartPrintable(g, p)
    ensures p.Title? ==> g.taskOf(p.line).Some?
    ensures p.Header? ==> g.stepOf(p.line).Some?
  {}

  lemma NextSteps(g: Grammar, s: State, p: Part)
    requires s.current ==> s.steps != []
    ensures var next := AfterPart(g, s, p);
            next.fence == s.fence && next.buf == s.buf && (next.current ==> next.steps != [])
  {}

  lemma GrowNothing(s: State)
    ensures s.current && s.steps != [] ==> Grow(s.steps, "", []) == s.steps
  {
    if s.current && s.steps != [] {
      var last := s.steps[|s.steps| - 1];
      assert last.prose + "" == last.prose && last.blocks + [] == last.blocks;
    }
  }

  lemma GrowNew(steps: seq<Step>, step: Step, prose: string, blocks: seq<Block>)
    requires step.prose == "" && step.blocks == []
    ensures Grow(steps + [step], prose, blocks) == steps + [step.(prose := prose, blocks := blocks)]
  {
    assert "" + prose == prose && [] + blocks == blocks;
  }

  lemma GrowTwice(steps: seq<Step>, prose: string, blocks: seq<Block>)
    requires steps != []
    ensures forall more, extra ::
              && Grow(steps, more, extra) != []
              && Grow(Grow(steps, more, extra), prose, blocks) == Grow(steps, more + prose, extra + blocks)
  {
    forall more, extra
      ensures Grow(steps, more, extra) != []
      ensures Grow(Grow(steps, more, extra), prose, blocks) == Grow(steps, more + prose, extra + blocks)
    {
      var last := steps[|steps| - 1];
      assert last.prose + more + prose == last.prose + (more + prose);
      assert last.blocks + extra + blocks == last.blocks + (extra + blocks);
    }
  }

  /** Parsing what was printed gives back every step, with its task number, header, prose and blocks. */
  lemma PlanRoundTrip(g: Grammar, parts: seq<Part>)
    requires g.Sane() && Printable(g, parts) && parts != []
    ensures Run(g, START, Lines(PlanOf(parts))).steps == StepsOf(g, 0, parts)
  {
    hide Run, Lines, PlanOf, PlanLines, StepsOf, Printable;
    LinesOfPlan(g, parts);
    RunPlan(g, START, parts);
  }

  // ---- equality after normalisation -----------------------------------------------------------------------

  function TrimNewlines(s: string): (r: string)
    ensures r <= s && |TrimRight(s)| <= |r|
    ensures r != "" ==> r[|r| - 1] != '\n'
    ensures forall k :: |r| <= k < |s| ==> s[k] == '\n'
  {
    if s != "" && s[|s| - 1] == '\n' then TrimNewlines(s[..|s| - 1]) else s
  }

  /** The block the checker compares: what the fence collects until the first line that closes it. */
  function Collected(g: Grammar, lines: seq<string>): seq<string> {
    if lines == [] || BareFence(g, lines[0]) then [] else [lines[0]] + Collected(g, lines[1..])
  }

  lemma {:induction false} CollectedAll(g: Grammar, lines: seq<string>)
    requires forall l :: l in lines ==> !BareFence(g, l)
    ensures Collected(g, lines) == lines
  {
    if lines == [] {
    } else {
      assert lines[0] in lines;
      CollectedAll(g, lines[1..]);
    }
  }

  lemma {:induction false} CollectedShorter(g: Grammar, lines: seq<string>)
    requires exists l :: l in lines && BareFence(g, l)
    ensures |JoinLines(Collected(g, lines))| < |JoinLines(lines)|
  {
    if BareFence(g, lines[0]) {
      assert |lines[0]| >= 3;
    } else {
      var l :| l in lines && BareFence(g, l);
      assert l in lines[1..];
      CollectedShorter(g, lines[1..]);
    }
  }

  /** The first block of the parse really is that one. */
  lemma {:induction false} FirstBlock(g: Grammar, s: State, lines: seq<string>, lang: string)
    requires g.Sane() && s.fence == Some(Opened("", lang)) && s.current && s.steps != []
    ensures var k := |Collected(g, lines)|;
            && k <= |lines|
            && Run(g, s, (lines + [FENCE])[..k + 1]) ==
               WithBlock(s.(fence := None, buf := []), Block(lang, JoinLines(s.buf + Collected(g, lines))))
    decreases |lines|
  {
    hide Feed, BareFence, Run, WithBlock;
    var all := lines + [FENCE];
    if lines != [] && !BareFence(g, lines[0]) {
      var l, rest := lines[0], lines[1..];
      var next := s.(buf := s.buf + [l]);
      CollectLine(g, s, l, lang);
      FirstBlock(g, next, rest, lang);
      var k := |Collected(g, rest)|;
      assert all[..k + 2] == [l] + (rest + [FENCE])[..k + 1];
      RunFirst(g, s, l, (rest + [FENCE])[..k + 1]);
      assert s.buf + [l] + Collected(g, rest) == s.buf + Collected(g, lines);
      assert next.(fence := None, buf := []) == s.(fence := None, buf := []);
    } else {
      assert all[..1] == [all[0]] && s.buf + [] == s.buf;
      RunOne(g, s, all[0]);
      CloseFence(g, s, all[0]);
    }
  }

  lemma {:induction false} TrimRightIdempotent(s: string)
    ensures TrimRight(TrimRight(s)) == TrimRight(s) && TrimNewlines(TrimRight(s)) == TrimRight(s)
  {
    if s != "" && IsSpace(s[|s| - 1]) {
      TrimRightIdempotent(s[..|s| - 1]);
    }
  }

  /** The compared block equals the file after normalisation if and only if the printed text has no bare fence line and
      the file ends, but for line feeds, without blanks. (Files are read with universal newlines, so no other line
      ending occurs.) */
  lemma RoundTripIff(g: Grammar, text: string)
    ensures TrimNewlines(JoinLines(Collected(g, Lines(TrimRight(text))))) == TrimNewlines(text)
            <==> NoBareFence(g, TrimRight(text)) && TrimNewlines(text) == TrimRight(text)
  {
    var printed := TrimRight(text);
    JoinThenSplit(printed);
    TrimRightIdempotent(text);
    if NoBareFence(g, printed) {
      CollectedAll(g, Lines(printed));
    } else {
      CollectedShorter(g, Lines(printed));
    }
  }

  lemma BlankEndDoesNotRoundTrip(g: Grammar)
    ensures TrimNewlines(JoinLines(Collected(g, Lines(TrimRight("a "))))) != TrimNewlines("a ")
  {
    var blank := "a ";
    assert |TrimNewlines(blank)| == 2 && blank[..1] == "a" && TrimRight(blank) == TrimRight("a") == "a";
    hide *;
    RoundTripIff(g, blank);
  }

  lemma FenceLineDoesNotRoundTrip(g: Grammar, a: string, b: string)
    requires g.Sane() && b != "" && !IsSpace(b[|b| - 1])
    ensures var text := a + "\n" + (FENCE + "\n" + b);
            TrimNewlines(JoinLines(Collected(g, Lines(TrimRight(text))))) != TrimNewlines(text)
  {
    var text := a + "\n" + (FENCE + "\n" + b);
    assert text[|text| - 1] == b[|b| - 1];
    assert TrimRight(text) == text;
    ClosingFence(g);
    hide TrimRight, Lines, BareFence, TrimNewlines, Collected;
    LinesOfConcat(a, FENCE + "\n" + b);
    LinesOfConcat(FENCE, b);
    PlainLine(FENCE);
    assert FENCE in Lines(FENCE) && FENCE in Lines(text);
    RoundTripIff(g, text);
  }

  /** Files that do not come back: one that ends in a blank, and any with a bare fence line and some text behind it. */
  lemma SomeFilesDoNotRoundTrip(g: Grammar, a: string, b: string)
    requires g.Sane() && b != "" && !IsSpace(b[|b| - 1])
    ensures forall text :: text == "a " || text == a + "\n" + (FENCE + "\n" + b) ==>
              TrimNewlines(JoinLines(Collected(g, Lines(TrimRight(text))))) != TrimNewlines(text)
  {
    hide *;
    BlankEndDoesNotRoundTrip(g);
    FenceLineDoesNotRoundTrip(g, a, b);
  }
}
