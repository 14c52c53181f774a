/** The parity checker's verdicts: which printed blocks differ from the files on disk with no later task to explain it,
    over several plans read as one history. */
module PlanDrift {
  import opened Basics
  import opened PlanText

  /** What the checker looks up: normalised file texts, bare code-file names, and which fence languages can be files
      with the wanted suffixes. */
  datatype Repo = Repo(files: map<Path, string>, isBareCode: Path -> bool, fits: (string, seq<Path>) -> bool,
                       norm: string -> string, within: (string, string) -> bool, pathsIn: string -> seq<Path>)

  /** The path is named in the step's header or prose. */
  predicate Mentions(repo: Repo, s: Step, path: Path) {
    path in repo.pathsIn(s.header + "\n" + s.prose)
  }

  // ---- one history of steps -------------------------------------------------------------

  predicate TasksBelow(steps: seq<Step>, bound: nat) {
    forall s :: s in steps ==> s.task < bound
  }

  predicate TasksFrom(steps: seq<Step>, bound: nat) {
    forall s :: s in steps ==> s.task >= bound
  }

  function Shifted(plan: seq<Step>, offset: nat): (r: seq<Step>)
    ensures |r| == |plan| && forall i :: 0 <= i < |plan| ==> r[i] == plan[i].(task := plan[i].task + offset)
  {
    seq(|plan|, i requires 0 <= i < |plan| => plan[i].(task := plan[i].task + offset))
  }

  function MaxTask(steps: seq<Step>): (m: nat)
    ensures forall s :: s in steps ==> s.task <= m
    ensures m == 0 || exists s :: s in steps && s.task == m
  {
    if steps == [] then 0
    else
      var init := MaxTask(steps[..|steps| - 1]);
      assert steps == steps[..|steps| - 1] + [steps[|steps| - 1]];
      if steps[|steps| - 1].task > init then steps[|steps| - 1].task else init
  }

  function Offset(steps: seq<Step>): nat {
    if steps == [] then 0 else MaxTask(steps) + 1
  }

  function History(plans: seq<seq<Step>>): seq<Step> {
    if plans == [] then []
    else
      var before := History(plans[..|plans| - 1]);
      before + Shifted(plans[|plans| - 1], Offset(before))
  }

  ghost predicate AllBelow(earlier: seq<Step>, later: seq<Step>) {
    forall a, b :: a in earlier && b in later ==> a.task < b.task
  }

  function TotalLength(plans: seq<seq<Step>>): nat {
    if plans == [] then 0 else TotalLength(plans[..|plans| - 1]) + |plans[|plans| - 1]|
  }

  /** Plan i stands in the history behind all steps of the plans before it and ahead of all others, as it was written
      but for one number added to its tasks, one more than the highest earlier task: all above every earlier task, and
      below every later one. */
  ghost predicate Stands(plans: seq<seq<Step>>, steps: seq<Step>, i: nat)
    requires i < |plans|
  {
    exists before, after, offset ::
      && steps == before + Shifted(plans[i], offset) + after
      && |before| == TotalLength(plans[..i]) && |steps| == TotalLength(plans) && OneAbove(before, offset)
      && AllBelow(before, Shifted(plans[i], offset)) && AllBelow(before + Shifted(plans[i], offset), after)
  }

  /** The first number no earlier task has reached; plans start to count at 0. */
  ghost predicate OneAbove(steps: seq<Step>, offset: nat) {
    TasksBelow(steps, offset) && (offset <= 1 || exists s :: s in steps && s.task + 1 == offset)
      && (steps == [] <==> offset == 0)
  }

  lemma OffsetIsOneAbove(steps: seq<Step>)
    ensures OneAbove(steps, Offset(steps))
  {}

  lemma {:induction false} EachPlanStands(plans: seq<seq<Step>>)
    ensures |History(plans)| == TotalLength(plans)
    ensures forall i :: 0 <= i < |plans| ==> Stands(plans, History(plans), i)
  {
    NoPlans();
    hide *;
    if plans == [] {
    } else {
      var init, last := plans[..|plans| - 1], plans[|plans| - 1];
      EachPlanStands(init);
      LaterPlanNumbersHigher(init, last);
      TotalGrows(init, last);
      OffsetIsOneAbove(History(init));
      assert init + [last] == plans;
      forall i | 0 <= i < |plans| ensures Stands(plans, History(plans), i) {
        if i < |init| {
          StandsOn(init, last, History(init), Offset(History(init)), i);
        } else {
          LastStands(init, last, History(init), Offset(History(init)));
        }
      }
    }
  }

  lemma NoPlans()
    ensures |History([])| == TotalLength([]) == 0
  {}

  lemma TotalGrows(init: seq<seq<Step>>, last: seq<Step>)
    ensures TotalLength(init + [last]) == TotalLength(init) + |last|
  {
    assert (init + [last])[..|init|] == init;
  }

  lemma StandsOn(init: seq<seq<Step>>, last: seq<Step>, steps: seq<Step>, bound: nat, i: nat)
    requires i < |init| && Stands(init, steps, i) && TasksBelow(steps, bound)
    ensures Stands(init + [last], steps + Shifted(last, bound), i)
  {
    var before, after, offset :|
      && steps == before + Shifted(init[i], offset) + after
      && |before| == TotalLength(init[..i]) && |steps| == TotalLength(init) && OneAbove(before, offset)
      && AllBelow(before, Shifted(init[i], offset)) && AllBelow(before + Shifted(init[i], offset), after);
    hide OneAbove;
    var plans, more := init + [last], after + Shifted(last, bound);
    assert plans[..|init|] == init && plans[..i] == init[..i] && plans[i] == init[i];
    var now := Shifted(init[i], offset);
    assert steps + Shifted(last, bound) == before + now + more;
    assert AllBelow(before + now, more) by {
      forall a, b | a in before + now && b in more ensures a.task < b.task {
        assert a in steps;
      }
    }
    assert plans[i] == init[i] && AllBelow(before, Shifted(plans[i], offset));
  }

  lemma LastStands(init: seq<seq<Step>>, last: seq<Step>, steps: seq<Step>, bound: nat)
    requires |steps| == TotalLength(init) && OneAbove(steps, bound)
    ensures Stands(init + [last], steps + Shifted(last, bound), |init|)
  {
    var plans, nothing: seq<Step> := init + [last], [];
    assert plans[..|init|] == init && plans[|init|] == last;
    assert steps + Shifted(last, bound) == steps + Shifted(plans[|init|], bound) + nothing;
    assert AllBelow(steps, Shifted(last, bound));
  }

  /** Plans in order, each with its tasks numbered above all earlier ones. */
  method ReadPlans(plans: seq<seq<Step>>) returns (steps: seq<Step>)
    ensures forall i :: 0 <= i < |plans| ==> Stands(plans, steps, i)
    ensures steps == History(plans)
  {
    steps := [];
    var offset := 0;
    for i := 0 to |plans|
      invariant steps == History(plans[..i]) && offset == Offset(steps)
    {
      assert plans[..i + 1][..i] == plans[..i];
      if plans[i] == [] {
        assert steps + Shifted([], offset) == steps;
        continue;
      }
      steps := steps + Shifted(plans[i], offset);
      offset := MaxTask(steps) + 1;
    }
    assert plans[..|plans|] == plans;
    EachPlanStands(plans);
  }

  lemma LaterPlanNumbersHigher(plans: seq<seq<Step>>, later: seq<Step>)
    ensures var before := History(plans);
            && History(plans + [later]) == before + Shifted(later, Offset(before))
            && TasksBelow(before, Offset(before)) && TasksFrom(Shifted(later, Offset(before)), Offset(before))
  {}

  // ---- the rules ---------------------------------------------------------------------------

  /** A task has run if it says what it creates and all of that is on disk. */
  ghost predicate HasRun(repo: Repo, steps: seq<Step>, task: nat) {
    && (exists s, p :: s in steps && s.task == task && s.verb == WholeFile && p in s.paths)
    && forall s, p :: s in steps && s.task == task && s.verb == WholeFile && p in s.paths ==> p in repo.files
  }

  /** The last task that mentions the path, 0 if none does. */
  function LastMention(repo: Repo, steps: seq<Step>, path: Path): (t: nat)
    ensures forall s :: s in steps && Mentions(repo, s, path) ==> s.task <= t
    ensures t == 0 || exists s :: s in steps && Mentions(repo, s, path) && s.task == t
  {
    if steps == [] then 0
    else
      var init, last := LastMention(repo, steps[..|steps| - 1], path), steps[|steps| - 1];
      assert steps == steps[..|steps| - 1] + [last];
      if Mentions(repo, last, path) && last.task > init then last.task else init
  }

  function Usable(repo: Repo, s: Step): seq<Block> {
    Kept(s.blocks, (b: Block) => repo.fits(b.lang, s.paths))
  }

  datatype Pair = Pair(path: Path, block: Block)

  /** Which block belongs to which path: one to one, or all to the only path; None is ambiguous. */
  function Pairs(repo: Repo, s: Step): Option<seq<Pair>> {
    var usable := Usable(repo, s);
    if |usable| == |s.paths| then Some(seq(|usable|, i requires 0 <= i < |usable| => Pair(s.paths[i], usable[i])))
    else if |s.paths| == 1 then
      var blocks := if usable != [] then usable else s.blocks;
      Some(seq(|blocks|, i requires 0 <= i < |blocks| => Pair(s.paths[0], blocks[i])))
    else None
  }

  /** Of the step's blocks, those at the positions `at` are the ones whose language fits; they go with the paths one by
      one if there are as many, and otherwise all blocks that fit (or, if none does, all) go with the only path. */
  ghost predicate Paired(s: Step, at: seq<nat>, pairs: Option<seq<Pair>>)
    requires forall k :: 0 <= k < |at| ==> at[k] < |s.blocks|
  {
    if |at| == |s.paths| then
      && pairs.Some? && |pairs.value| == |at|
      && forall i :: 0 <= i < |at| ==> pairs.value[i] == Pair(s.paths[i], s.blocks[at[i]])
    else if |s.paths| == 1 then
      && pairs.Some? && |pairs.value| == (if at == [] then |s.blocks| else |at|)
      && forall i :: 0 <= i < |pairs.value| ==>
           pairs.value[i] == Pair(s.paths[0], s.blocks[if at == [] then i else at[i]])
    else pairs.None?
  }

  lemma PairsMean(repo: Repo, s: Step)
    ensures exists at: seq<nat> ::
              && (forall j, k :: 0 <= j < k < |at| ==> at[j] < at[k])
              && (forall k :: 0 <= k < |at| ==> at[k] < |s.blocks|)
              && (forall i: nat :: i in at <==> i < |s.blocks| && repo.fits(s.blocks[i].lang, s.paths))
              && Paired(s, at, Pairs(repo, s))
  {
    var fits := (b: Block) => repo.fits(b.lang, s.paths);
    KeptInOrder(s.blocks, fits);
    var at := KeptAt(s.blocks, fits);
    hide KeptAt, Kept;
    assert InStoredOrder(s.blocks, Usable(repo, s), at);
    assert forall i: nat :: i in at <==> i < |s.blocks| && repo.fits(s.blocks[i].lang, s.paths);
    assert Paired(s, at, Pairs(repo, s));
  }

  predicate Agrees(repo: Repo, s: Step, p: Pair)
    requires p.path in repo.files
  {
    var body := repo.norm(p.block.body);
    if s.verb == WholeFile then repo.files[p.path] == body else repo.within(body, repo.files[p.path])
  }

  /** The step's blocks are compared at all. */
  ghost predicate Compared(repo: Repo, steps: seq<Step>, s: Step) {
    && s.verb != Other && s.paths != [] && s.blocks != []
    && (forall p :: p in s.paths && repo.isBareCode(p) ==> p in repo.files)
    && HasRun(repo, steps, s.task)
    && Pairs(repo, s).Some?
  }

  datatype Verdict = Match | Superseded | Drift | NotOnDisk

  function VerdictOn(repo: Repo, steps: seq<Step>, s: Step, p: Pair): Verdict {
    if p.path !in repo.files then NotOnDisk
    else if Agrees(repo, s, p) then Match
    else if LastMention(repo, steps, p.path) > s.task then Superseded
    else Drift
  }

  // ---- appending a plan --------------------------------------------------------------------------

  lemma SameRuns(repo: Repo, before: seq<Step>, later: seq<Step>, bound: nat, task: nat)
    requires TasksBelow(before, bound) && TasksFrom(later, bound) && task < bound
    ensures HasRun(repo, before + later, task) <==> HasRun(repo, before, task)
  {}

  lemma MentionsGrow(repo: Repo, before: seq<Step>, later: seq<Step>, bound: nat, path: Path)
    requires TasksBelow(before, bound) && TasksFrom(later, bound)
    ensures LastMention(repo, before + later, path) >= LastMention(repo, before, path)
    ensures if exists s :: s in later && Mentions(repo, s, path) then LastMention(repo, before + later, path) >= bound
            else LastMention(repo, before + later, path) == LastMention(repo, before, path)
  {}

  /** Appending a later plan re-judges an earlier plan's block in one way only: a drift becomes superseded exactly when
      the later plan mentions its path. What is compared, and every other verdict, stays. So it never adds a drift. */
  lemma LaterPlanOnlyExcuses(repo: Repo, plans: seq<seq<Step>>, later: seq<Step>, s: Step, p: Pair)
    requires s in History(plans)
    ensures var before, all := History(plans), History(plans + [later]);
            var mentioned := exists l :: l in later && Mentions(repo, l, p.path);
            && s in all
            && (Compared(repo, all, s) <==> Compared(repo, before, s))
            && VerdictOn(repo, all, s, p) ==
               (if VerdictOn(repo, before, s, p) == Drift && mentioned then Superseded
                else VerdictOn(repo, before, s, p))
  {
    hide Pairs, HasRun, History, LastMention, Agrees, Offset, Usable, Shifted;
    var before := History(plans);
    var bound := Offset(before);
    var shifted := Shifted(later, bound);
    LaterPlanNumbersHigher(plans, later);
    SameRuns(repo, before, shifted, bound, s.task);
    MentionsGrow(repo, before, shifted, bound, p.path);
    ShiftKeepsMentions(repo, later, bound, p.path);
    assert s.task < bound && s in before + shifted;
  }

  lemma ShiftKeepsMentions(repo: Repo, later: seq<Step>, bound: nat, path: Path)
    ensures (exists l :: l in later && Mentions(repo, l, path)) <==>
            (exists l :: l in Shifted(later, bound) && Mentions(repo, l, path))
  {
    var shifted := Shifted(later, bound);
    if l :| l in later && Mentions(repo, l, path) {
      assert shifted[Position(later, l)] in shifted && Mentions(repo, shifted[Position(later, l)], path);
    }
    if l :| l in shifted && Mentions(repo, l, path) {
      assert later[Position(shifted, l)] in later && Mentions(repo, later[Position(shifted, l)], path);
    }
  }

  // ---- the classification loop -----------------------------------------------------------------------

  datatype Report = Report(step: nat, path: Path, body: string)

  /** The drift reports a step gives rise to. */
  ghost function DriftOf(repo: Repo, steps: seq<Step>, i: nat): seq<Report>
    requires i < |steps|
  {
    if Compared(repo, steps, steps[i]) then DriftAmong(repo, steps, i, Pairs(repo, steps[i]).value) else []
  }

  ghost function DriftAmong(repo: Repo, steps: seq<Step>, i: nat, pairs: seq<Pair>): seq<Report>
    requires i < |steps|
  {
    if pairs == [] then []
    else
      var last := pairs[|pairs| - 1];
      DriftAmong(repo, steps, i, pairs[..|pairs| - 1])
      + if VerdictOn(repo, steps, steps[i], last) == Drift then [Report(i, last.path, last.block.body)] else []
  }

  /** The pair's file is there and disagrees, and no later task mentions its path. */
  ghost predicate Drifts(repo: Repo, steps: seq<Step>, s: Step, p: Pair) {
    && p.path in repo.files && !Agrees(repo, s, p)
    && forall l :: l in steps && p.path in repo.pathsIn(l.header + "\n" + l.prose) ==> l.task <= s.task
  }

  ghost predicate ReportedFor(repo: Repo, steps: seq<Step>, i: nat, pairs: seq<Pair>, r: Report)
    requires i < |steps|
  {
    exists p :: p in pairs && Drifts(repo, steps, steps[i], p) && r == Report(i, p.path, p.block.body)
  }

  lemma {:induction false} DriftMeans(repo: Repo, steps: seq<Step>, i: nat, pairs: seq<Pair>)
    requires i < |steps|
    ensures forall r :: r in DriftAmong(repo, steps, i, pairs) <==> ReportedFor(repo, steps, i, pairs, r)
  {
    if pairs == [] {
    } else {
      var init, last := pairs[..|pairs| - 1], pairs[|pairs| - 1];
      DriftMeans(repo, steps, i, init);
      VerdictMeans(repo, steps, steps[i], last);
      assert pairs == init + [last];
      hide VerdictOn, Drifts;
      forall r ensures ReportedFor(repo, steps, i, pairs, r) <==>
          ReportedFor(repo, steps, i, init, r) ||
          (Drifts(repo, steps, steps[i], last) && r == Report(i, last.path, last.block.body))
      {
        assert last in pairs && forall p :: p in pairs <==> p in init || p == last;
      }
    }
  }

  lemma VerdictMeans(repo: Repo, steps: seq<Step>, s: Step, p: Pair)
    ensures VerdictOn(repo, steps, s, p) == Drift <==> Drifts(repo, steps, s, p)
  {}

  lemma {:induction false} AllDriftMeans(repo: Repo, steps: seq<Step>, n: nat)
    requires n <= |steps|
    ensures forall r :: r in AllDrift(repo, steps, n) <==>
              r.step < n && Compared(repo, steps, steps[r.step])
              && ReportedFor(repo, steps, r.step, Pairs(repo, steps[r.step]).value, r)
  {
    hide Pairs, Drifts, DriftAmong, HasRun;
    if n == 0 {
    } else {
      AllDriftMeans(repo, steps, n - 1);
      if Compared(repo, steps, steps[n - 1]) {
        DriftMeans(repo, steps, n - 1, Pairs(repo, steps[n - 1]).value);
      }
    }
  }

  lemma {:induction false} ExcusedAmong(repo: Repo, plans: seq<seq<Step>>, later: seq<Step>, i: nat, pairs: seq<Pair>)
    requires i < |History(plans)| <= |History(plans + [later])| && History(plans + [later])[i] == History(plans)[i]
    ensures forall r :: r in DriftAmong(repo, History(plans + [later]), i, pairs) <==>
              r in DriftAmong(repo, History(plans), i, pairs) && !exists l :: l in later && Mentions(repo, l, r.path)
  {
    hide History, VerdictOn, Compared;
    if pairs == [] {
    } else {
      ExcusedAmong(repo, plans, later, i, pairs[..|pairs| - 1]);
      assert History(plans)[i] in History(plans);
      LaterPlanOnlyExcuses(repo, plans, later, History(plans)[i], pairs[|pairs| - 1]);
    }
  }

  /** The drift reported for an earlier plan's step after appending a plan is what was reported before, less the paths
      the later plan mentions. */
  lemma LaterPlanAddsNoDrift(repo: Repo, plans: seq<seq<Step>>, later: seq<Step>, i: nat)
    requires i < |History(plans)|
    ensures i < |History(plans + [later])|
    ensures forall r :: r in DriftOf(repo, History(plans + [later]), i) <==>
              r in DriftOf(repo, History(plans), i) && !exists l :: l in later && Mentions(repo, l, r.path)
  {
    hide DriftAmong, VerdictOn, Pairs, Compared;
    var s := History(plans)[i];
    assert s in History(plans);
    LaterPlanNumbersHigher(plans, later);
    assert History(plans + [later])[i] == s;
    hide History;
    LaterPlanOnlyExcuses(repo, plans, later, s, Pair("", Block("", "")));
    if Compared(repo, History(plans), s) {
      PairsAreThere(repo, History(plans), s);
      ExcusedAmong(repo, plans, later, i, Pairs(repo, s).value);
    }
  }

  lemma PairsAreThere(repo: Repo, steps: seq<Step>, s: Step)
    requires Compared(repo, steps, s)
    ensures Pairs(repo, s).Some?
  {}

  ghost function AllDrift(repo: Repo, steps: seq<Step>, n: nat): seq<Report>
    requires n <= |steps|
  {
    if n == 0 then [] else AllDrift(repo, steps, n - 1) + DriftOf(repo, steps, n - 1)
  }

  /** Rule 2 as the checker computes it: tasks are unrun if they create nothing or something is missing. */
  method Unrun(repo: Repo, steps: seq<Step>, task: nat) returns (unrun: bool)
    ensures unrun <==> !HasRun(repo, steps, task)
  {
    var creates, missing := false, false;
    for i := 0 to |steps|
      invariant creates <==> exists s, p :: s in steps[..i] && s.task == task && s.verb == WholeFile && p in s.paths
      invariant missing <==>
                  exists s, p :: s in steps[..i] && s.task == task && s.verb == WholeFile && p in s.paths &&
                    p !in repo.files
    {
      var s := steps[i];
      assert steps[..i + 1] == steps[..i] + [s];
      if s.task == task && s.verb == WholeFile && s.paths != [] {
        assert s.paths[0] in s.paths;
        creates := true;
        if exists p :: p in s.paths && p !in repo.files {
          missing := true;
        }
      }
    }
    assert steps[..|steps|] == steps;
    return !creates || missing;
  }

  /** The drift among one step's pairs. */
  method JudgePairs(repo: Repo, steps: seq<Step>, i: nat, pairs: seq<Pair>) returns (drift: seq<Report>)
    requires i < |steps|
    ensures forall r :: r in drift <==> ReportedFor(repo, steps, i, pairs, r)
    ensures drift == DriftAmong(repo, steps, i, pairs)
  {
    DriftMeans(repo, steps, i, pairs);
    hide LastMention, Agrees;
    drift := [];
    for k := 0 to |pairs|
      invariant drift == DriftAmong(repo, steps, i, pairs[..k])
    {
      var p := pairs[k];
      assert pairs[..k + 1][..k] == pairs[..k];
      if p.path !in repo.files {
        continue;
      }
      if Agrees(repo, steps[i], p) {
        continue;
      }
      if LastMention(repo, steps, p.path) <= steps[i].task {
        drift := drift + [Report(i, p.path, p.block.body)];
      }
    }
    assert pairs[..|pairs|] == pairs;
  }

  method Classify(repo: Repo, steps: seq<Step>) returns (drift: seq<Report>)
    ensures forall r :: r in drift <==>
              r.step < |steps| && Compared(repo, steps, steps[r.step])
              && ReportedFor(repo, steps, r.step, Pairs(repo, steps[r.step]).value, r)
    ensures drift == AllDrift(repo, steps, |steps|)
  {
    AllDriftMeans(repo, steps, |steps|);
    hide HasRun, DriftAmong, Pairs;
    drift := [];
    for i := 0 to |steps|
      invariant drift == AllDrift(repo, steps, i)
    {
      var step := steps[i];
      if step.verb == Other || step.paths == [] {
        continue;
      }
      if exists p :: p in step.paths && repo.isBareCode(p) && p !in repo.files {
        continue;
      }
      var unrun := Unrun(repo, steps, step.task);
      if unrun || step.blocks == [] {
        continue;
      }
      var pairs := Pairs(repo, step);
      if pairs.None? {
        continue;
      }
      var found := JudgePairs(repo, steps, i, pairs.value);
      drift := drift + found;
    }
  }
}
