/** Document lineages: versions of one regulation, at most one of them current, and the worker that may fail. */
module DocumentVersions {
  import opened Basics

  type Id = nat

  datatype Doc = Doc(lineage: Id, version: nat, current: bool, superseded: bool, status: Status, sha: string)

  const MAX_TRIES := 2

  predicate Terminal(s: Status) {
    s == Indexed || s == Failed
  }

  // ---- lineages ------------------------------------------------------------------------

  /** The table's partial unique index: one current document a lineage. */
  ghost predicate OneCurrent(docs: map<Id, Doc>) {
    forall a, b ::
      a in docs && b in docs && docs[a].lineage == docs[b].lineage && docs[a].current && docs[b].current ==> a == b
  }

  ghost predicate VersionsDistinct(docs: map<Id, Doc>) {
    forall a, b ::
      a in docs && b in docs && docs[a].lineage == docs[b].lineage && docs[a].version == docs[b].version ==> a == b
  }

  ghost predicate HasCurrent(docs: map<Id, Doc>, lineage: Id) {
    exists d :: d in docs && docs[d].lineage == lineage && docs[d].current
  }

  /** Every lineage with a current document keeps one. */
  ghost predicate CurrentsKept(before: map<Id, Doc>, after: map<Id, Doc>) {
    forall l :: HasCurrent(before, l) ==> HasCurrent(after, l)
  }

  predicate Older(docs: map<Id, Doc>, p: Id, d: Id)
    requires d in docs
  {
    p in docs && p != d && docs[p].lineage == docs[d].lineage && docs[p].version < docs[d].version
  }

  /** The existing version right below d. */
  predicate IsPrevious(docs: map<Id, Doc>, p: Id, d: Id)
    requires d in docs
  {
    Older(docs, p, d) && forall k :: k in docs && Older(docs, k, d) ==> docs[k].version <= docs[p].version
  }

  /** ORDER BY version DESC LIMIT 1 among the older versions. */
  method FindPrevious(docs: map<Id, Doc>, d: Id) returns (previous: Option<Id>)
    requires d in docs
    ensures previous.None? <==> forall k :: k in docs ==> !Older(docs, k, d)
    ensures previous.Some? ==> IsPrevious(docs, previous.value, d)
  {
    previous := None;
    var todo := docs.Keys;
    while todo != {}
      invariant todo <= docs.Keys
      invariant previous.None? ==> forall k :: k in docs && k !in todo ==> !Older(docs, k, d)
      invariant previous.Some? ==>
                  && Older(docs, previous.value, d)
                  && forall k :: k in docs && k !in todo && Older(docs, k, d) ==>
                       docs[k].version <= docs[previous.value].version
      decreases todo
    {
      var k :| k in todo;
      if Older(docs, k, d) && (previous.None? || docs[k].version > docs[previous.value].version) {
        previous := Some(k);
      }
      todo := todo - {k};
    }
  }

  ghost predicate Reverts(docs: map<Id, Doc>, d: Id)
    requires d in docs
  {
    docs[d].version > 1 && docs[d].current && exists p :: p in docs && Older(docs, p, d)
  }

  /** The flag was passed from d to p, and nothing else changed. */
  ghost predicate PassedTo(before: map<Id, Doc>, after: map<Id, Doc>, d: Id, p: Id)
    requires d in before && p in before && d != p
  {
    after == before[d := before[d].(current := false, superseded := true)]
                   [p := before[p].(current := true, superseded := false)]
  }

  /** A failing version cannot stay current: the flag goes to the existing version right below it. */
  method RevertCurrentOnFailure(docs: map<Id, Doc>, d: Id) returns (after: map<Id, Doc>, reverted: bool)
    requires OneCurrent(docs) && VersionsDistinct(docs) && d in docs
    ensures OneCurrent(after) && VersionsDistinct(after) && CurrentsKept(docs, after)
    ensures reverted <==> Reverts(docs, d)
    ensures !reverted ==> after == docs
    ensures reverted ==> exists p :: IsPrevious(docs, p, d) && PassedTo(docs, after, d, p)
  {
    after, reverted := docs, false;
    if docs[d].version <= 1 || !docs[d].current {
      return;
    }
    var previous := FindPrevious(docs, d);
    if previous.None? {
      return;
    }
    var p := previous.value;
    after := after[d := after[d].(current := false, superseded := true)];
    assert OneCurrent(after); // flushed here
    after := after[p := after[p].(current := true, superseded := false)];
    reverted := true;
    PassingKeepsLineages(docs, after, d, p);
  }

  lemma PassingKeepsLineages(docs: map<Id, Doc>, after: map<Id, Doc>, d: Id, p: Id)
    requires OneCurrent(docs) && VersionsDistinct(docs) && d in docs && docs[d].current && Older(docs, p, d)
    requires PassedTo(docs, after, d, p)
    ensures OneCurrent(after) && VersionsDistinct(after) && CurrentsKept(docs, after)
  {
    forall l | HasCurrent(docs, l) ensures HasCurrent(after, l) {
      var c :| c in docs && docs[c].lineage == l && docs[c].current;
      if c == d {
        assert after[p].lineage == l && after[p].current;
      } else {
        assert after[c].current && after[c].lineage == l;
      }
    }
  }

  /** A status change leaves lineages alone. */
  lemma StatusKeepsLineages(docs: map<Id, Doc>, d: Id, s: Status)
    requires d in docs && OneCurrent(docs) && VersionsDistinct(docs)
    ensures var after := docs[d := docs[d].(status := s)];
            OneCurrent(after) && VersionsDistinct(after) && CurrentsKept(docs, after)
  {
    var after := docs[d := docs[d].(status := s)];
    forall l | HasCurrent(docs, l) ensures HasCurrent(after, l) {
      var c :| c in docs && docs[c].lineage == l && docs[c].current;
      assert after[c].current && after[c].lineage == l;
    }
  }

  // ---- requests and jobs -------------------------------------------------------------------

  datatype Upload = Rejected | Accepted(sha: string, queued: bool)
  datatype Answer = Ok | NotFound | Invalid | SameFile | NotIndexed
  /** How a processing job ended. */
  datatype JobEnd = Finished | ParseRefused | PipelineError | TimedOut | ShutDown

  /** The highest version number of a lineage, 1 if it has none. */
  method LatestVersion(docs: map<Id, Doc>, lineage: Id) returns (latest: nat)
    ensures forall k :: k in docs && docs[k].lineage == lineage ==> docs[k].version <= latest
    ensures latest == 1 || exists k :: k in docs && docs[k].lineage == lineage && docs[k].version == latest
  {
    latest := 0;
    var todo := docs.Keys;
    while todo != {}
      invariant todo <= docs.Keys
      invariant forall k :: k in docs && k !in todo && docs[k].lineage == lineage ==> docs[k].version <= latest
      invariant latest == 0 || exists k :: k in docs && docs[k].lineage == lineage && docs[k].version == latest
      decreases todo
    {
      var k :| k in todo;
      if docs[k].lineage == lineage && docs[k].version > latest {
        latest := docs[k].version;
      }
      todo := todo - {k};
    }
    if latest == 0 {
      latest := 1;
    }
  }

  /** The current document of a lineage, if it has one. */
  method FindCurrent(docs: map<Id, Doc>, lineage: Id) returns (current: Option<Id>)
    ensures current.None? <==> !HasCurrent(docs, lineage)
    ensures current.Some? ==>
              current.value in docs && docs[current.value].lineage == lineage && docs[current.value].current
  {
    var candidates := set d | d in docs && docs[d].lineage == lineage && docs[d].current;
    if candidates == {} {
      assert forall d :: d in docs && docs[d].lineage == lineage && docs[d].current ==> d in candidates;
      return None;
    }
    var c :| c in candidates;
    return Some(c);
  }

  // ---- adding a version ----------------------------------------------------------------------

  /** No version of its lineage is newer. */
  predicate IsHighest(docs: map<Id, Doc>, d: Id) {
    d in docs && forall k :: k in docs && docs[k].lineage == docs[d].lineage ==> docs[k].version <= docs[d].version
  }

  /** The lineage gained newId as its newest version. If the job was queued it alone is current; if not, it failed and
      the highest of the older versions is. Outside the lineage, and but for the flag, nothing changed. */
  ghost predicate VersionAdded(before: map<Id, Doc>, after: map<Id, Doc>, newId: Id, lineage: Id, sha: string,
                               queued: bool) {
    && newId !in before && after.Keys == before.Keys + {newId}
    && after[newId].lineage == lineage && after[newId].sha == sha
    && after[newId].status == (if queued then Uploaded else Failed)
    && after[newId].current == queued && after[newId].superseded == !queued
    && (forall d :: d in before && before[d].lineage == lineage ==> before[d].version < after[newId].version)
    && (after[newId].version == 2 ||
        exists d :: d in before && before[d].lineage == lineage && before[d].version + 1 == after[newId].version)
    && (forall d :: d in before && before[d].lineage != lineage ==> after[d] == before[d])
    && (forall d :: d in before && before[d].lineage == lineage ==>
          && after[d] == before[d].(current := after[d].current, superseded := after[d].superseded)
          && after[d].current == (!queued && IsHighest(before, d))
          && after[d].superseded == (!after[d].current && (before[d].superseded || before[d].current)))
  }

  lemma AddedKeepsLineages(before: map<Id, Doc>, after: map<Id, Doc>, newId: Id, lineage: Id, sha: string)
    requires OneCurrent(before) && VersionsDistinct(before) && VersionAdded(before, after, newId, lineage, sha, true)
    ensures OneCurrent(after) && VersionsDistinct(after) && CurrentsKept(before, after)
  {}

  /** Inserts the new row, takes the flag from the current version and gives it to the new one; the unique index holds
      at every flush. */
  method AddVersion(docs: map<Id, Doc>, newId: Id, lineage: Id, sha: string, current: Option<Id>)
    returns (work: map<Id, Doc>)
    requires OneCurrent(docs) && VersionsDistinct(docs) && newId !in docs
    requires if current.Some?
             then current.value in docs && docs[current.value].lineage == lineage && docs[current.value].current
             else !HasCurrent(docs, lineage)
    ensures OneCurrent(work) && VersionsDistinct(work) && CurrentsKept(docs, work)
    ensures VersionAdded(docs, work, newId, lineage, sha, true)
  {
    var latest := LatestVersion(docs, lineage);
    work := docs[newId := Doc(lineage, latest + 1, false, false, Uploaded, sha)];
    assert OneCurrent(work);
    if current.Some? {
      work := work[current.value := work[current.value].(current := false, superseded := true)];
      assert OneCurrent(work);
    }
    work := work[newId := work[newId].(current := true)];
    assert forall d :: d in docs && docs[d].lineage == lineage && docs[d].current ==> current == Some(d);
    AddedKeepsLineages(docs, work, newId, lineage, sha);
  }

  /** The job could not be queued: the new version is marked failed and gives the flag away. */
  method AbandonVersion(before: map<Id, Doc>, added: map<Id, Doc>, newId: Id, lineage: Id, sha: string, someId: Id)
    returns (work: map<Id, Doc>)
    requires OneCurrent(added) && VersionsDistinct(added) && VersionAdded(before, added, newId, lineage, sha, true)
    requires VersionsDistinct(before) && someId in before && before[someId].lineage == lineage &&
             before[someId].version >= 1
    ensures OneCurrent(work) && VersionsDistinct(work) && CurrentsKept(added, work)
    ensures VersionAdded(before, work, newId, lineage, sha, false)
  {
    hide VersionsDistinct, OneCurrent, CurrentsKept;
    StatusKeepsLineages(added, newId, Failed);
    var failing := added[newId := added[newId].(status := Failed)];
    var reverted;
    work, reverted := RevertCurrentOnFailure(failing, newId);
    assert Older(failing, someId, newId);
    ghost var p :| IsPrevious(failing, p, newId) && PassedTo(failing, work, newId, p);
    FlagFallsToHighest(before, added, failing, work, newId, lineage, sha, p);
    CurrentsKeptTwice(added, failing, work);
  }

  lemma FlagFallsToHighest(before: map<Id, Doc>, added: map<Id, Doc>, failing: map<Id, Doc>, work: map<Id, Doc>,
                           newId: Id, lineage: Id, sha: string, p: Id)
    requires VersionsDistinct(before) && VersionAdded(before, added, newId, lineage, sha, true)
    requires failing == added[newId := added[newId].(status := Failed)]
    requires IsPrevious(failing, p, newId) && PassedTo(failing, work, newId, p)
    ensures VersionAdded(before, work, newId, lineage, sha, false)
  {
    hide VersionsDistinct, IsHighest, IsPrevious, Older;
    PreviousIsHighest(before, failing, newId, lineage, p);
  }

  lemma PreviousIsHighest(before: map<Id, Doc>, failing: map<Id, Doc>, newId: Id, lineage: Id, p: Id)
    requires VersionsDistinct(before) && newId in failing && failing[newId].lineage == lineage &&
             IsPrevious(failing, p, newId)
    requires newId !in before && failing.Keys == before.Keys + {newId}
    requires forall d :: d in before ==>
               failing[d].lineage == before[d].lineage && failing[d].version == before[d].version
    requires forall d :: d in before && before[d].lineage == lineage ==> before[d].version < failing[newId].version
    ensures p in before && before[p].lineage == lineage
    ensures forall d :: d in before && before[d].lineage == lineage ==> (IsHighest(before, d) <==> d == p)
  {
    assert forall d :: d in before && before[d].lineage == lineage ==> Older(failing, d, newId);
  }

  lemma CurrentsKeptTwice(a: map<Id, Doc>, b: map<Id, Doc>, c: map<Id, Doc>)
    requires CurrentsKept(a, b) && CurrentsKept(b, c)
    ensures CurrentsKept(a, c)
  {}

  /** An upload whose job cannot be queued gives the flag back to the version that held it if and only if that one was
      the lineage's highest; after an activation of an older version it ends up elsewhere. */
  lemma FailedUploadRestoresIff(before: map<Id, Doc>, after: map<Id, Doc>, newId: Id, lineage: Id, sha: string, c: Id)
    requires OneCurrent(before) && VersionsDistinct(before) && VersionAdded(before, after, newId, lineage, sha, false)
    requires c in before && before[c].lineage == lineage && before[c].current
    ensures (forall d :: d in before ==> after[d].current == before[d].current) <==> IsHighest(before, c)
  {}

  /** The same for a job that fails, whatever status the new version had reached: the flags of all older versions are
      as before the upload if and only if the version that was current was the lineage's highest. */
  lemma FailedJobRestoresIff(before: map<Id, Doc>, added: map<Id, Doc>, running: map<Id, Doc>, after: map<Id, Doc>,
                             newId: Id, lineage: Id, sha: string, reached: Status, c: Id)
    requires OneCurrent(before) && VersionsDistinct(before) && VersionAdded(before, added, newId, lineage, sha, true)
    requires running == added[newId := added[newId].(status := reached)] && FailedAt(running, after, newId)
    requires c in before && before[c].lineage == lineage && before[c].current && before[c].version >= 1
    ensures after.Keys == added.Keys
    ensures (forall d :: d in before ==> after[d].current == before[d].current) <==> IsHighest(before, c)
  {
    hide OneCurrent, VersionsDistinct, IsHighest, VersionAdded;
    OldCurrentIsOlder(before, added, newId, lineage, sha, c);
    SameOlder(added, running, newId, reached);
    var marked := running[newId := running[newId].(status := Failed)];
    var p :| IsPrevious(running, p, newId) && PassedTo(marked, after, newId, p);
    SameOlder(running, marked, newId, Failed);
    hide Older, Reverts, FailedAt, IsPrevious;
    FlagFallsToHighest(before, added, marked, after, newId, lineage, sha, p);
    FailedUploadRestoresIff(before, after, newId, lineage, sha, c);
  }

  lemma OldCurrentIsOlder(before: map<Id, Doc>, added: map<Id, Doc>, newId: Id, lineage: Id, sha: string, c: Id)
    requires VersionAdded(before, added, newId, lineage, sha, true)
    requires c in before && before[c].lineage == lineage && before[c].version >= 1
    ensures newId in added && Reverts(added, newId)
  {
    assert Older(added, c, newId);
  }

  /** A lineage of two versions; version 1 made current again; version 3 uploaded; its job failed. */
  function Stage(n: nat): map<Id, Doc> {
    var one, two := Doc(7, 1, false, true, Indexed, "a"), Doc(7, 2, false, true, Indexed, "b");
    match n
    case 0 => map[1 := one, 2 := two.(current := true, superseded := false)]
    case 1 => map[1 := one.(current := true, superseded := false), 2 := two]
    case 2 => map[1 := one, 2 := two, 3 := Doc(7, 3, true, false, Uploaded, "c")]
    case _ => map[1 := one, 2 := two.(current := true, superseded := false), 3 := Doc(7, 3, false, true, Failed, "c")]
  }

  lemma StageIsLineage()
    ensures OneCurrent(Stage(0)) && VersionsDistinct(Stage(0))
  {}

  lemma StageIsActivated()
    ensures Activated(Stage(0), Stage(1), 1, 7)
  {}

  lemma StageIsAdded()
    ensures VersionAdded(Stage(1), Stage(2), 3, 7, "c", true)
  {
    hide IsHighest;
    assert 2 in Stage(1) && Stage(1)[2].lineage == 7 && Stage(1)[2].version + 1 == 3;
  }

  lemma StageIsFailed()
    ensures FailedAt(Stage(2), Stage(3), 3)
  {
    var running := Stage(2);
    assert IsPrevious(running, 2, 3);
    assert PassedTo(running[3 := running[3].(status := Failed)], Stage(3), 3, 2);
  }

  /** Then version 2 is current, not version 1. */
  lemma FailedJobMissesTheOldCurrent()
    ensures exists before: map<Id, Doc>, activated: map<Id, Doc>, added: map<Id, Doc>, after: map<Id, Doc> ::
              && OneCurrent(before) && VersionsDistinct(before)
              && Activated(before, activated, 1, 7) && VersionAdded(activated, added, 3, 7, "c", true)
              && FailedAt(added, after, 3)
              && 1 in activated && activated[1].current
              && 1 in after && !after[1].current && 2 in after && after[2].current
  {
    StageIsLineage();
    StageIsActivated();
    StageIsAdded();
    StageIsFailed();
    hide OneCurrent, VersionsDistinct, Activated, VersionAdded, FailedAt;
    assert Stage(1)[1].current && !Stage(3)[1].current && Stage(3)[2].current;
  }

  class DocumentStore {
    var docs: map<Id, Doc>

    /** Versions count from 1. */
    ghost predicate Valid()
      reads this
    {
      OneCurrent(docs) && VersionsDistinct(docs) && forall d :: d in docs ==> docs[d].version >= 1
    }

    constructor ()
      ensures Valid() && docs == map[]
    {
      docs := map[];
    }

    /** The first upload of a file: a lineage of its own, version 1, current. */
    method UploadFirst(newId: Id, lineage: Id, sha: string, queued: bool)
      requires Valid() && newId !in docs && forall d :: d in docs ==> docs[d].lineage != lineage
      modifies this
      ensures Valid() && CurrentsKept(old(docs), docs) && HasCurrent(docs, lineage)
      ensures docs == old(docs)[newId := Doc(lineage, 1, true, false, if queued then Uploaded else Failed, sha)]
    {
      ghost var before := docs;
      docs := docs[newId := Doc(lineage, 1, true, false, Uploaded, sha)];
      if !queued {
        docs := docs[newId := docs[newId].(status := Failed)];
      }
      assert docs[newId].current && docs[newId].lineage == lineage;
      forall l | HasCurrent(before, l) ensures HasCurrent(docs, l) {
        var c :| c in before && before[c].lineage == l && before[c].current;
        assert docs[c].current && docs[c].lineage == l;
      }
    }

    method UploadVersion(baseId: Id, upload: Upload, newId: Id) returns (answer: Answer)
      requires Valid() && newId !in docs
      modifies this
      ensures Valid() && CurrentsKept(old(docs), docs)
      ensures answer != Ok ==> docs == old(docs)
      ensures answer == Ok <==>
                && baseId in old(docs) && upload.Accepted?
                && forall c :: c in old(docs) && old(docs)[c].lineage == old(docs)[baseId].lineage &&
                     old(docs)[c].current
                     ==> old(docs)[c].sha != upload.sha
      ensures answer == NotFound <==> baseId !in old(docs)
      ensures answer == Invalid <==> baseId in old(docs) && upload.Rejected?
      ensures answer in {Ok, NotFound, Invalid, SameFile}
      ensures answer == Ok ==>
                VersionAdded(old(docs), docs, newId, old(docs)[baseId].lineage, upload.sha, upload.queued)
    {
      hide VersionsDistinct, CurrentsKept, OneCurrent, IsHighest;
      KeptByNothing(docs);
      if baseId !in docs {
        return NotFound;
      }
      var lineage := docs[baseId].lineage;
      var current := FindCurrent(docs, lineage);
      if upload.Rejected? {
        return Invalid;
      }
      OnlyCurrent(docs, current, lineage);
      if current.Some? && docs[current.value].sha == upload.sha {
        return SameFile;
      }
      var work := AddVersion(docs, newId, lineage, upload.sha, current);
      if !upload.queued {
        ghost var added := work;
        work := AbandonVersion(docs, work, newId, lineage, upload.sha, baseId);
        CurrentsKeptTwice(docs, added, work);
      }
      docs := work;
      return Ok;
    }

    /** Makes an indexed version current again and takes the flag from the rest of its lineage. */
    method Activate(baseId: Id, versionId: Id) returns (answer: Answer)
      requires Valid()
      modifies this
      ensures Valid() && CurrentsKept(old(docs), docs)
      ensures answer != Ok ==> docs == old(docs)
      ensures answer == Ok <==>
                && baseId in old(docs) && versionId in old(docs)
                && old(docs)[versionId].lineage == old(docs)[baseId].lineage && old(docs)[versionId].status == Indexed
      ensures answer == NotIndexed <==>
                && baseId in old(docs) && versionId in old(docs)
                && old(docs)[versionId].lineage == old(docs)[baseId].lineage && old(docs)[versionId].status != Indexed
      ensures answer in {Ok, NotFound, NotIndexed}
      ensures answer == Ok ==> Activated(old(docs), docs, versionId, old(docs)[baseId].lineage)
    {
      hide OneCurrent, VersionsDistinct, CurrentsKept, Activated;
      KeptByNothing(docs);
      if baseId !in docs || versionId !in docs || docs[versionId].lineage != docs[baseId].lineage {
        return NotFound;
      }
      if docs[versionId].status != Indexed {
        return NotIndexed;
      }
      var lineage := docs[baseId].lineage;
      var work := Demoted(docs, lineage);
      work := work[versionId := work[versionId].(current := true, superseded := false)];
      ActivationIsExact(docs, versionId, lineage);
      ActivationKeepsLineages(docs, work, versionId, lineage);
      docs := work;
      return Ok;
    }

    /** Last line of defence of a dying job. A finished document is never overwritten. */
    method MarkFailed(d: Id)
      requires Valid()
      modifies this
      ensures Valid() && CurrentsKept(old(docs), docs)
      ensures d !in old(docs) || old(docs)[d].status in {Indexed, Failed} ==> docs == old(docs)
      ensures d in old(docs) && old(docs)[d].status !in {Indexed, Failed} ==>
                FailedAt(old(docs), docs, d) && d in docs && docs[d].status == Failed
    {
      KeptByNothing(docs);
      if d in docs && !Terminal(docs[d].status) {
        docs := FailDocument(docs, d);
      }
    }

    /** One processing job over a document that the pipeline has brought to some status, and how it ended. */
    method ProcessDocument(d: Id, reached: Status, end: JobEnd, jobTry: Option<nat>)
      requires Valid()
      modifies this
      ensures Valid() && CurrentsKept(old(docs), docs)
      ensures d !in old(docs) ==> docs == old(docs)
      ensures d in old(docs) ==>
                var running := old(docs)[d := old(docs)[d].(status := reached)];
                var retried := end == ShutDown && jobTry.Some? && jobTry.value < MAX_TRIES;
                && (end == Finished ==> docs == running[d := running[d].(status := Indexed)])
                && (retried ==> docs == running)
                && (!retried ==> d in docs && docs[d].status in {Indexed, Failed})
                && (end in {ParseRefused, PipelineError} ==> FailedAt(running, docs, d))
                && (end in {TimedOut, ShutDown} && !retried ==>
                      if reached in {Indexed, Failed} then docs == running else FailedAt(running, docs, d))
    {
      hide OneCurrent, VersionsDistinct, CurrentsKept, FailedAt;
      KeptByNothing(docs);
      if d !in docs {
        return;
      }
      ghost var before := docs;
      StatusKeepsLineages(docs, d, reached);
      docs := docs[d := docs[d].(status := reached)];
      ghost var running := docs;
      match end {
        case Finished =>
          StatusKeepsLineages(docs, d, Indexed);
          docs := docs[d := docs[d].(status := Indexed)];
        case ParseRefused =>
          docs := FailDocument(docs, d);
        case PipelineError =>
          docs := FailDocument(docs, d);
          MarkFailed(d);
        case TimedOut =>
          MarkFailed(d);
        case ShutDown =>
          if (if jobTry.Some? then jobTry.value else MAX_TRIES) >= MAX_TRIES {
            MarkFailed(d);
          }
      }
      CurrentsKeptTwice(before, running, docs);
    }

    /** Deleting documents is the one step that may leave a lineage without a current version. */
    method Delete(ids: set<Id>)
      requires Valid()
      modifies this
      ensures Valid() && docs == old(docs) - ids
    {
      docs := docs - ids;
    }
  }

  /** d failed: marked so, and if it was current above an older version the flag went to the version right below. */
  ghost predicate FailedAt(before: map<Id, Doc>, after: map<Id, Doc>, d: Id)
    requires d in before
  {
    var marked := before[d := before[d].(status := Failed)];
    if Reverts(before, d) then exists p :: IsPrevious(before, p, d) && PassedTo(marked, after, d, p)
    else after == marked
  }

  method FailDocument(docs: map<Id, Doc>, d: Id) returns (after: map<Id, Doc>)
    requires OneCurrent(docs) && VersionsDistinct(docs) && d in docs
    ensures OneCurrent(after) && VersionsDistinct(after) && CurrentsKept(docs, after)
    ensures FailedAt(docs, after, d) && d in after && after[d].status == Failed
    ensures after.Keys == docs.Keys && forall k :: k in docs ==> after[k].version == docs[k].version
  {
    StatusKeepsLineages(docs, d, Failed);
    var marked := docs[d := docs[d].(status := Failed)];
    var reverted;
    after, reverted := RevertCurrentOnFailure(marked, d);
    SameOlder(docs, marked, d, Failed);
    CurrentsKeptTwice(docs, marked, after);
  }

  lemma SameOlder(docs: map<Id, Doc>, marked: map<Id, Doc>, d: Id, s: Status)
    requires d in docs && marked == docs[d := docs[d].(status := s)]
    ensures Reverts(docs, d) <==> Reverts(marked, d)
    ensures forall p :: IsPrevious(docs, p, d) <==> IsPrevious(marked, p, d)
  {
    assert forall p :: Older(docs, p, d) <==> Older(marked, p, d);
  }

  lemma KeptByNothing(docs: map<Id, Doc>)
    ensures CurrentsKept(docs, docs)
  {}

  lemma OnlyCurrent(docs: map<Id, Doc>, current: Option<Id>, lineage: Id)
    requires OneCurrent(docs)
    requires if current.Some?
             then current.value in docs && docs[current.value].lineage == lineage && docs[current.value].current
             else !HasCurrent(docs, lineage)
    ensures forall c :: c in docs && docs[c].lineage == lineage && docs[c].current ==> current == Some(c)
  {}

  /** The lineage with its flag taken away. */
  function Demoted(docs: map<Id, Doc>, lineage: Id): map<Id, Doc> {
    map d | d in docs ::
      if docs[d].lineage == lineage && docs[d].current then docs[d].(current := false, superseded := true) else docs[d]
  }

  /** versionId alone holds its lineage's flag; nothing but the flag changed, and nothing at all elsewhere. */
  ghost predicate Activated(before: map<Id, Doc>, after: map<Id, Doc>, versionId: Id, lineage: Id) {
    && after.Keys == before.Keys
    && versionId in after && after[versionId].current && !after[versionId].superseded
    && (forall d :: d in before ==>
        after[d] == before[d].(current := after[d].current, superseded := after[d].superseded))
    && (forall d :: d in before && before[d].lineage == lineage && d != versionId ==>
          !after[d].current && after[d].superseded == (before[d].superseded || before[d].current))
    && (forall d :: d in before && before[d].lineage != lineage ==> after[d] == before[d])
  }

  lemma ActivationIsExact(docs: map<Id, Doc>, versionId: Id, lineage: Id)
    requires versionId in docs && docs[versionId].lineage == lineage
    ensures var work := Demoted(docs, lineage);
            Activated(docs, work[versionId := work[versionId].(current := true, superseded := false)], versionId,
                      lineage)
  {}

  lemma ActivationKeepsLineages(before: map<Id, Doc>, after: map<Id, Doc>, versionId: Id, lineage: Id)
    requires OneCurrent(before) && VersionsDistinct(before) && Activated(before, after, versionId, lineage)
    requires versionId in before && before[versionId].lineage == lineage
    ensures OneCurrent(after) && VersionsDistinct(after) && CurrentsKept(before, after)
    ensures forall d :: d in after ==> after[d].version == before[d].version
  {}

  /** If every older version of a lineage is indexed, failing its current version leaves an indexed one current. */
  lemma FailureLeavesIndexedCurrent(before: map<Id, Doc>, after: map<Id, Doc>, d: Id)
    requires OneCurrent(before) && d in before && before[d].current && FailedAt(before, after, d) && Reverts(before, d)
    requires forall k :: k in before && Older(before, k, d) ==> before[k].status == Indexed
    ensures exists p :: p in after && after[p].lineage == before[d].lineage && after[p].current &&
              after[p].status == Indexed
    ensures after[d].status == Failed && !after[d].current
  {
    var marked := before[d := before[d].(status := Failed)];
    var p :| IsPrevious(before, p, d) && PassedTo(marked, after, d, p);
    assert after[p].current && after[p].lineage == before[d].lineage;
  }
}
