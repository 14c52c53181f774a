/** Generator and checker together: a plan printed from the files on disk is parsed back and compared with them. */
module PlanParity {
  import opened Basics
  import opened PlanText
  import opened PlanDrift

  type Disk = map<Path, string>

  ghost predicate IsSlice(a: string, b: string) {
    exists front, back :: b == front + a + back
  }

  /** The checker looks at the same disk: texts are compared without their trailing line feeds. */
  ghost predicate ReadsDisk(repo: Repo, disk: Disk) {
    && repo.files.Keys == disk.Keys
    && (forall p :: p in disk ==> repo.files[p] == TrimNewlines(disk[p]))
    && (forall s :: repo.norm(s) == TrimNewlines(s))
    && forall a, b :: repo.within(a, b) <==> IsSlice(a, b)
  }

  /** Each block paired with a path was printed from that file: the whole of it, or a slice. */
  ghost predicate Quotes(repo: Repo, disk: Disk, s: Step) {
    Pairs(repo, s).Some? ==> forall p :: p in Pairs(repo, s).value ==> PrintedFrom(disk, s, p)
  }

  ghost predicate PrintedFrom(disk: Disk, s: Step, p: Pair) {
    && p.path in disk
    && exists text ::
         && p.block.body == TrimRight(text)
         && if s.verb == WholeFile then text == disk[p.path] else IsSlice(text, disk[p.path])
  }

  /** But for line feeds, the file ends without blanks. */
  predicate EndsClean(text: string) {
    TrimNewlines(text) == TrimRight(text)
  }

  lemma SliceAt(a: string, b: string, front: string, back: string)
    requires b == front + a + back
    ensures IsSlice(a, b)
  {}

  /** A trimmed slice of a text lies in front of the text's trailing line feeds. */
  lemma TrimmedSliceWithin(text: string, whole: string)
    requires IsSlice(text, whole)
    ensures IsSlice(TrimRight(text), TrimNewlines(whole))
  {
    var front, back :| whole == front + text + back;
    var piece := TrimRight(text);
    assert IsSpace('\n');
    assert piece != [] ==> piece[|piece| - 1] != '\n';
    PieceBeforeNewlines(front, text, back, TrimNewlines(whole), |piece|);
    assert text[..|piece|] == piece;
  }

  lemma PieceBeforeNewlines(front: string, text: string, back: string, kept: string, n: nat)
    requires n <= |text| && (n > 0 ==> text[n - 1] != '\n') && kept <= front + text + back
    requires forall k :: |kept| <= k < |front + text + back| ==> (front + text + back)[k] == '\n'
    ensures IsSlice(text[..n], kept)
  {
    if n == 0 {
      assert kept == kept + text[..0];
      SliceAt(text[..0], kept, kept, text[..0]);
    } else {
      var whole := front + text + back;
      assert whole[|front| + n - 1] == text[n - 1];
      SliceOfPrefix(front, text, back, kept, n);
      hide IsSlice;
      SliceAt(text[..n], kept, front, kept[|front| + n..]);
    }
  }

  lemma SliceOfPrefix(front: string, text: string, back: string, kept: string, n: nat)
    requires kept <= front + text + back && n <= |text| && |front| + n <= |kept|
    ensures kept == front + text[..n] + kept[|front| + n..]
  {
    var whole := front + text + back;
    assert kept[..|front|] == whole[..|front|] == front;
    assert kept[|front|..|front| + n] == whole[|front|..|front| + n] == text[..n];
  }

  /** A printed block drifts if and only if it is a whole file that does not end clean and no later task mentions it; a
      slice never does. */
  lemma PrintedBlockDriftsIff(repo: Repo, disk: Disk, steps: seq<Step>, s: Step, p: Pair)
    requires ReadsDisk(repo, disk) && PrintedFrom(disk, s, p)
    ensures p.path in disk
    ensures Drifts(repo, steps, s, p) <==>
              && s.verb == WholeFile && !EndsClean(disk[p.path])
              && forall l :: l in steps && Mentions(repo, l, p.path) ==> l.task <= s.task
  {
    hide TrimRight, TrimNewlines, IsSlice;
    var text :| p.block.body == TrimRight(text)
                && if s.verb == WholeFile then text == disk[p.path] else IsSlice(text, disk[p.path]);
    TrimRightIdempotent(text);
    if s.verb != WholeFile {
      TrimmedSliceWithin(text, disk[p.path]);
    }
  }

  /** Some compared whole file does not end clean, and no later task excuses it. */
  ghost predicate Spoilt(repo: Repo, disk: Disk, steps: seq<Step>) {
    exists i, p ::
      && 0 <= i < |steps| && Compared(repo, steps, steps[i]) && Pairs(repo, steps[i]).Some?
      && p in Pairs(repo, steps[i]).value
      && steps[i].verb == WholeFile && p.path in disk && !EndsClean(disk[p.path])
      && forall l :: l in steps && Mentions(repo, l, p.path) ==> l.task <= steps[i].task
  }

  /** The checker on one plan. If the plan was printed from the files now on disk, and none of the printed texts holds a
      bare fence line, drift is reported if and only if some whole file does not end clean and nothing excuses it. */
  method CheckPlan(g: Grammar, repo: Repo, plan: string) returns (drift: seq<Report>)
    ensures forall parts, disk ::
              && g.Sane() && parts != [] && Printable(g, parts) && plan == PlanOf(parts) && ReadsDisk(repo, disk)
              && (forall s :: s in StepsOf(g, 0, parts) ==> Quotes(repo, disk, s)) ==>
                (drift != [] <==> Spoilt(repo, disk, StepsOf(g, 0, parts)))
  {
    hide Printable, PlanOf, StepsOf, ReadsDisk, Quotes, Spoilt, Compared, ReportedFor, History, Stands, Run, Lines;
    var steps := Parse(g, plan);
    var history := ReadPlans([steps]);
    OnePlan(steps);
    drift := Classify(repo, history);
    forall disk | ReadsDisk(repo, disk) && forall s :: s in steps ==> Quotes(repo, disk, s)
      ensures drift != [] <==> Spoilt(repo, disk, steps)
    {
      ReportedIffSpoilt(repo, disk, steps, drift);
    }
  }

  lemma OnePlan(steps: seq<Step>)
    ensures History([steps]) == steps
  {
    var none: seq<seq<Step>> := [];
    assert [steps][..0] == none && History(none) == [];
    assert Shifted(steps, 0) == steps;
  }

  lemma ReportedIffSpoilt(repo: Repo, disk: Disk, steps: seq<Step>, drift: seq<Report>)
    requires ReadsDisk(repo, disk) && forall s :: s in steps ==> Quotes(repo, disk, s)
    requires forall r :: r in drift <==>
               r.step < |steps| && Compared(repo, steps, steps[r.step])
               && ReportedFor(repo, steps, r.step, Pairs(repo, steps[r.step]).value, r)
    ensures drift != [] <==> Spoilt(repo, disk, steps)
  {
    hide ReadsDisk, Compared, Pairs, Drifts, Mentions, EndsClean, PrintedFrom;
    if drift != [] {
      var r := drift[0];
      assert r in drift;
      var s := steps[r.step];
      PairsAreThere(repo, steps, s);
      var p :| p in Pairs(repo, s).value && Drifts(repo, steps, s, p) && r == Report(r.step, p.path, p.block.body);
      assert s in steps && Quotes(repo, disk, s) && PrintedFrom(disk, s, p);
      PrintedBlockDriftsIff(repo, disk, steps, s, p);
    }
    if Spoilt(repo, disk, steps) {
      var i, p :|
        && 0 <= i < |steps| && Compared(repo, steps, steps[i]) && Pairs(repo, steps[i]).Some?
        && p in Pairs(repo, steps[i]).value
        && steps[i].verb == WholeFile && p.path in disk && !EndsClean(disk[p.path])
        && forall l :: l in steps && Mentions(repo, l, p.path) ==> l.task <= steps[i].task;
      PairsAreThere(repo, steps, steps[i]);
      assert steps[i] in steps && Quotes(repo, disk, steps[i]) && PrintedFrom(disk, steps[i], p);
      PrintedBlockDriftsIff(repo, disk, steps, steps[i], p);
      var r := Report(i, p.path, p.block.body);
      assert ReportedFor(repo, steps, r.step, Pairs(repo, steps[i]).value, r);
      assert r in drift;
    }
  }

}
