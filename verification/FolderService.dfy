/** The folder and bulk-document requests, each one serialised transaction over the tables, and the
    subtree totals shown beside each folder. */
module FolderService {
  import opened Basics
  import opened FolderTree

  datatype Document = Document(collection: Id, folder: Option<Id>, status: Status, current: bool, size: nat,
                               updated: int)

  // ---- what each check asks of the table ------------------------------------------

  predicate SiblingTaken(fs: map<Id, Folder>, collection: Id, parent: Option<Id>, name: string, exclude: Option<Id>) {
    exists id :: id in fs && Some(id) != exclude &&
      fs[id].collection == collection && fs[id].parent == parent && fs[id].name == name
  }

  /** The table's unique constraint on (collection, parent, name). A null parent never equals another. */
  predicate BreaksConstraint(fs: map<Id, Folder>) {
    exists a, b :: a in fs && b in fs && a != b && fs[a].parent.Some? && Siblings(fs[a], fs[b]) &&
      fs[a].name == fs[b].name
  }

  function Renamed(fs: map<Id, Folder>, id: Id, name: Option<string>): map<Id, Folder>
    requires id in fs
  {
    if name.Some? then fs[id := fs[id].(name := Strip(name.value))] else fs
  }

  function Destination(fs: map<Id, Folder>, id: Id, parent: Option<Id>, toRoot: bool): Option<Id>
    requires id in fs
  {
    if toRoot then None else if parent.Some? then parent else fs[id].parent
  }

  /** The table a request with this patch asks for. */
  ghost function Patched(fs: map<Id, Folder>, id: Id, name: Option<string>, parent: Option<Id>, toRoot: bool)
    : map<Id, Folder>
    requires id in fs && (!toRoot && parent.Some? ==> parent.value in fs)
  {
    if toRoot || parent.Some? then Moved(Renamed(fs, id, name), id, Destination(fs, id, parent, toRoot))
    else Renamed(fs, id, name)
  }

  /** The move, if one is asked for, is legal. */
  ghost predicate LegalMove(fs: map<Id, Folder>, id: Id, name: Option<string>, parent: Option<Id>, toRoot: bool)
    requires AllLinked(fs) && id in fs
  {
    && AllLinked(Renamed(fs, id, name))
    && (toRoot || parent.Some? ==> MayMove(Renamed(fs, id, name), id, Destination(fs, id, parent, toRoot)))
  }

  /** Another folder holds the (new) name at the destination. */
  ghost predicate DestinationTaken(fs: map<Id, Folder>, id: Id, name: Option<string>, parent: Option<Id>, toRoot: bool)
    requires id in fs
  {
    var renamed := Renamed(fs, id, name);
    SiblingTaken(renamed, fs[id].collection, Destination(fs, id, parent, toRoot), renamed[id].name, Some(id))
  }

  /** Below a parent, a sibling already holds the new name where the folder still stands. */
  predicate ClashesInPlace(fs: map<Id, Folder>, id: Id, name: Option<string>)
    requires id in fs
  {
    var renamed := Renamed(fs, id, name);
    fs[id].parent.Some? && SiblingTaken(renamed, fs[id].collection, fs[id].parent, renamed[id].name, Some(id))
  }

  /** What a patch asks for makes sense: a legal move, and a name that is free at the destination. */
  ghost predicate Fits(fs: map<Id, Folder>, id: Id, name: Option<string>, parent: Option<Id>, toRoot: bool)
    requires AllLinked(fs)
  {
    id in fs && LegalMove(fs, id, name, parent, toRoot) && !DestinationTaken(fs, id, name, parent, toRoot)
  }

  /** When a patch is accepted: a move must besides leave room for the new name where the folder still stands, because
      the rename is written before the subtree is read. */
  ghost predicate Acceptable(fs: map<Id, Folder>, id: Id, name: Option<string>, parent: Option<Id>, toRoot: bool)
    requires AllLinked(fs)
  {
    Fits(fs, id, name, parent, toRoot) && (toRoot || parent.Some? ==> !ClashesInPlace(fs, id, name))
  }

  predicate SamePlace(a: Folder, b: Folder) {
    a.collection == b.collection && a.parent == b.parent && a.path == b.path && a.depth == b.depth
  }

  lemma LinkCarriesOver(fs: map<Id, Folder>, r: map<Id, Folder>, k: Id)
    requires k in fs && k in r && Linked(fs, k) && SamePlace(fs[k], r[k])
    requires fs[k].parent.Some? ==> fs[k].parent.value in r && SamePlace(fs[fs[k].parent.value], r[fs[k].parent.value])
    ensures Linked(r, k)
  {}

  lemma RenameKeepsLinks(fs: map<Id, Folder>, id: Id, name: Option<string>)
    requires AllLinked(fs) && id in fs
    ensures AllLinked(Renamed(fs, id, name)) && Renamed(fs, id, name).Keys == fs.Keys
    ensures SamePlace(fs[id], Renamed(fs, id, name)[id])
    ensures forall k :: k in fs && k != id ==> Renamed(fs, id, name)[k] == fs[k]
  {
    hide Linked, Strip;
    var r := Renamed(fs, id, name);
    forall k | k in r ensures Linked(r, k) {
      assert Linked(fs, k);
      ParentIsThere(fs, k);
      LinkCarriesOver(fs, r, k);
    }
  }

  lemma ParentIsThere(fs: map<Id, Folder>, k: Id)
    requires AllLinked(fs) && k in fs
    ensures fs[k].parent.Some? ==>
              && fs[k].parent.value in fs && fs[k].parent.value != k
              && fs[k].collection == fs[fs[k].parent.value].collection
  {}

  /** Moving changes no name, no collection, and no parent but the moved folder's. */
  lemma MovedSiblings(fs: map<Id, Folder>, id: Id, dest: Option<Id>)
    requires AllLinked(fs) && id in fs && (dest.Some? ==> dest.value in fs)
    ensures var m := Moved(fs, id, dest);
            && m.Keys == fs.Keys && m[id].parent == dest
            && forall k :: k in fs ==> m[k].name == fs[k].name && m[k].collection == fs[k].collection
                                       && (k != id ==> m[k].parent == fs[k].parent)
  {}

  /** A patched table differs from the old one, as far as sibling names go, in one row. */
  ghost predicate OneRowEdited(fs: map<Id, Folder>, work: map<Id, Folder>, id: Id) {
    && id in fs && work.Keys == fs.Keys
    && (forall k :: k in fs ==> work[k].collection == fs[k].collection)
    && (forall k :: k in fs && k != id ==> work[k].parent == fs[k].parent && work[k].name == fs[k].name)
  }

  lemma PatchEditsOneRow(fs: map<Id, Folder>, id: Id, name: Option<string>, parent: Option<Id>, toRoot: bool)
    requires AllLinked(fs) && id in fs && (!toRoot && parent.Some? ==> parent.value in fs)
    ensures var work := Patched(fs, id, name, parent, toRoot);
            && OneRowEdited(fs, work, id) && id in work
            && work[id].parent == Destination(fs, id, parent, toRoot)
            && work[id].name == Renamed(fs, id, name)[id].name
  {
    hide Linked, Strip, AllLinked;
    RenameKeepsLinks(fs, id, name);
    var renamed := Renamed(fs, id, name);
    if toRoot || parent.Some? {
      hide Moved;
      MovedSiblings(renamed, id, Destination(fs, id, parent, toRoot));
    }
  }

  lemma PatchedRows(fs: map<Id, Folder>, id: Id, name: Option<string>, parent: Option<Id>, toRoot: bool)
    requires AllLinked(fs) && id in fs && (!toRoot && parent.Some? ==> parent.value in fs)
    ensures var work := Patched(fs, id, name, parent, toRoot);
            && work.Keys == fs.Keys
            && work[id].name == (if name.Some? then Strip(name.value) else fs[id].name)
            && work[id].parent == (if toRoot then None else if parent.Some? then parent else fs[id].parent)
            && work[id].collection == fs[id].collection
            && forall k :: k in fs && k != id ==>
                 work[k].name == fs[k].name && work[k].parent == fs[k].parent && work[k].collection == fs[k].collection
  {
    PatchEditsOneRow(fs, id, name, parent, toRoot);
    hide Patched, AllLinked, Strip;
  }

  /** The sibling check reads the same rows before and after the folder itself is moved. */
  lemma SiblingCheckIgnoresMove(fs: map<Id, Folder>, a: map<Id, Folder>, b: map<Id, Folder>, id: Id, dest: Option<Id>)
    requires OneRowEdited(fs, a, id) && OneRowEdited(fs, b, id) && a[id].name == b[id].name && b[id].parent == dest
    ensures SiblingTaken(a, a[id].collection, dest, a[id].name, Some(id)) ==
            SiblingTaken(b, b[id].collection, b[id].parent, b[id].name, Some(id))
  {}

  lemma RenameEditsOneRow(fs: map<Id, Folder>, id: Id, name: Option<string>)
    requires AllLinked(fs) && id in fs
    ensures OneRowEdited(fs, Renamed(fs, id, name), id)
  {
    hide Linked, Strip, AllLinked;
    RenameKeepsLinks(fs, id, name);
  }

  lemma EditKeepsNamesUnique(fs: map<Id, Folder>, work: map<Id, Folder>, id: Id)
    requires SiblingNamesUnique(fs) && OneRowEdited(fs, work, id)
    ensures BreaksConstraint(work) <==>
              work[id].parent.Some? && SiblingTaken(work, work[id].collection, work[id].parent, work[id].name, Some(id))
    ensures !SiblingTaken(work, work[id].collection, work[id].parent, work[id].name, Some(id)) ==>
              SiblingNamesUnique(work)
  {}

  lemma RenameBreaksIff(fs: map<Id, Folder>, id: Id, name: Option<string>)
    requires Tree(fs) && id in fs
    ensures BreaksConstraint(Renamed(fs, id, name)) <==> ClashesInPlace(fs, id, name)
  {
    hide BreaksConstraint, SiblingTaken, SiblingNamesUnique, AllLinked, OneRowEdited;
    RenameKeepsLinks(fs, id, name);
    RenameEditsOneRow(fs, id, name);
    EditKeepsNamesUnique(fs, Renamed(fs, id, name), id);
  }

  /** A move that is legal and whose name is free at the destination would leave a tree. (FolderStore.Update says when
      it is carried out all the same: not always.) */
  lemma FittingMoveLeavesTree(fs: map<Id, Folder>, id: Id, name: Option<string>, parent: Option<Id>, toRoot: bool)
    requires Tree(fs) && Fits(fs, id, name, parent, toRoot) && (toRoot || parent.Some?)
    ensures !toRoot && parent.Some? ==> parent.value in fs
    ensures Tree(Patched(fs, id, name, parent, toRoot))
  {
    RenameKeepsLinks(fs, id, name);
    PatchKeepsTree(fs, id, name, parent, toRoot);
  }

  /** Folders "x" and "y" in a root folder "p". */
  function Crowded(p: Id, x: Id, y: Id): map<Id, Folder> {
    map[p := Folder("c", None, "p", "/" + p + "/", 1),
        x := Folder("c", Some(p), "x", "/" + p + "/" + x + "/", 2),
        y := Folder("c", Some(p), "y", "/" + p + "/" + y + "/", 2)]
  }

  lemma CrowdedIsTree(p: Id, x: Id, y: Id)
    requires p != x && p != y && x != y
    ensures Tree(Crowded(p, x, y))
  {
    var fs := Crowded(p, x, y);
    assert Linked(fs, p) && Linked(fs, x) && Linked(fs, y);
    assert AllLinked(fs);
    hide Linked, AllLinked;
    assert fs[x].name[0] == 'x' && fs[y].name[0] == 'y';
  }

  lemma NothingToStrip()
    ensures Strip("y") == "y"
  {}

  lemma CrowdedRename(p: Id, x: Id, y: Id)
    requires p != x && p != y && x != y
    ensures var r := Renamed(Crowded(p, x, y), x, Some("y"));
            && r.Keys == {p, x, y} && r[p].parent == None && r[p].name == "p" && r[p].depth == 1
            && r[x].collection == r[y].collection == "c" && r[x].parent == r[y].parent == Some(p)
            && r[x].name == r[y].name == "y" && r[x].depth == r[y].depth == 2
  {
    NothingToStrip();
    hide Strip;
  }

  lemma CrowdedClash(p: Id, x: Id, y: Id)
    requires p != x && p != y && x != y
    ensures ClashesInPlace(Crowded(p, x, y), x, Some("y"))
    ensures !DestinationTaken(Crowded(p, x, y), x, Some("y"), None, true)
  {
    CrowdedRename(p, x, y);
    hide Renamed;
    var r := Renamed(Crowded(p, x, y), x, Some("y"));
    assert y in r && r[p].name[0] == 'p' && r[x].name[0] == 'y';
  }

  lemma CrowdedMoveFits(p: Id, x: Id, y: Id)
    requires p != x && p != y && x != y && AllLinked(Crowded(p, x, y))
    ensures Fits(Crowded(p, x, y), x, Some("y"), None, true)
  {
    RenameKeepsLinks(Crowded(p, x, y), x, Some("y"));
    CrowdedRename(p, x, y);
    CrowdedClash(p, x, y);
    hide AllLinked, IsAncestorOrSelf, Renamed, DestinationTaken, ClashesInPlace;
    var r := Renamed(Crowded(p, x, y), x, Some("y"));
    assert forall k :: k in r ==> DepthUnder(r, None) + r[k].depth - r[x].depth <= MAX_FOLDER_DEPTH;
    assert MayMove(r, x, None);
  }

  /** Moving "x" to the root under the new name "y" would leave a tree, and is refused. */
  lemma FittingMoveMayBeRefused()
    ensures exists fs: map<Id, Folder>, id: Id, name ::
              Tree(fs) && Fits(fs, id, Some(name), None, true) && Tree(Patched(fs, id, Some(name), None, true))
              && !Acceptable(fs, id, Some(name), None, true)
  {
    var p: Id, x: Id, y: Id := "1", "2", "3";
    assert p[0] != x[0] && p[0] != y[0] && x[0] != y[0];
    CrowdedIsTree(p, x, y);
    CrowdedClash(p, x, y);
    CrowdedMoveFits(p, x, y);
    hide Tree, Fits, Crowded, ClashesInPlace, Patched;
    FittingMoveLeavesTree(Crowded(p, x, y), x, Some("y"), None, true);
  }

  lemma PatchKeepsTree(fs: map<Id, Folder>, id: Id, name: Option<string>, parent: Option<Id>, toRoot: bool)
    requires Tree(fs) && Fits(fs, id, name, parent, toRoot)
    ensures Tree(Patched(fs, id, name, parent, toRoot))
  {
    RenameKeepsLinks(fs, id, name);
    assert !toRoot && parent.Some? ==> parent.value in fs;
    hide Patched, Moved, Linked, SiblingTaken, BreaksConstraint, OneRowEdited, Renamed, AllLinked, SiblingNamesUnique;
    var work, renamed := Patched(fs, id, name, parent, toRoot), Renamed(fs, id, name);
    PatchEditsOneRow(fs, id, name, parent, toRoot);
    RenameEditsOneRow(fs, id, name);
    SiblingCheckIgnoresMove(fs, renamed, work, id, Destination(fs, id, parent, toRoot));
    EditKeepsNamesUnique(fs, work, id);
    PatchKeepsLinks(fs, id, name, parent, toRoot);
  }

  lemma PatchKeepsLinks(fs: map<Id, Folder>, id: Id, name: Option<string>, parent: Option<Id>, toRoot: bool)
    requires AllLinked(fs) && id in fs && LegalMove(fs, id, name, parent, toRoot)
    ensures AllLinked(Patched(fs, id, name, parent, toRoot))
  {
    if toRoot || parent.Some? {
      MoveKeepsLinks(Renamed(fs, id, name), id, Destination(fs, id, parent, toRoot));
    }
  }

  lemma AncestorsByPath(fs: map<Id, Folder>, id: Id)
    requires AllLinked(fs) && id in fs
    ensures forall k :: k in fs ==> (InSubtree(fs, id, k) <==> IsAncestorOrSelf(fs, id, k))
  {
    forall k | k in fs ensures InSubtree(fs, id, k) <==> IsAncestorOrSelf(fs, id, k) {
      PathPrefixIffAncestor(fs, id, k);
    }
  }

  lemma InsertKeepsLinks(fs: map<Id, Folder>, id: Id, f: Folder)
    requires AllLinked(fs) && id !in fs && (f.parent.Some? ==> f.parent.value in fs)
    requires f.path == PathUnder(fs, f.parent, id) && f.depth == DepthUnder(fs, f.parent) <= MAX_FOLDER_DEPTH
    requires f.parent.Some? ==> fs[f.parent.value].collection == f.collection
    ensures AllLinked(fs[id := f])
  {}

  lemma InsertKeepsTree(fs: map<Id, Folder>, id: Id, f: Folder)
    requires Tree(fs) && id !in fs && (f.parent.Some? ==> f.parent.value in fs)
    requires f.path == PathUnder(fs, f.parent, id) && f.depth == DepthUnder(fs, f.parent) <= MAX_FOLDER_DEPTH
    requires f.parent.Some? ==> fs[f.parent.value].collection == f.collection
    requires !SiblingTaken(fs, f.collection, f.parent, f.name, None)
    ensures Tree(fs[id := f])
    ensures Chain(fs[id := f], id) == ParentChain(fs, f.parent) + [id]
  {
    hide PathUnder, DepthUnder, Linked, PathOf;
    var r := fs[id := f];
    InsertKeepsLinks(fs, id, f);
    if f.parent.Some? {
      SameChain(fs, r, f.parent.value);
      ChainStep(r, id, f.parent.value);
    }
  }

  lemma {:induction false} SameChain(fs: map<Id, Folder>, r: map<Id, Folder>, k: Id)
    requires AllLinked(fs) && AllLinked(r) && k in fs
    requires forall i :: i in fs ==> i in r && r[i] == fs[i]
    ensures Chain(r, k) == Chain(fs, k)
    decreases fs[k].depth
  {
    ParentIsThere(fs, k);
    if fs[k].parent.None? {
    } else {
      assert Linked(fs, k);
      SameChain(fs, r, fs[k].parent.value);
    }
  }

  lemma DeleteKeepsTree(fs: map<Id, Folder>, id: Id)
    requires Tree(fs) && id in fs && forall k :: k in fs ==> fs[k].parent != Some(id)
    ensures Tree(fs - {id})
  {}

  // ---- rewriting a subtree ----------------------------------------------------------

  /** The largest depth inside the subtree. */
  method Deepest(fs: map<Id, Folder>, id: Id) returns (depth: int)
    requires id in fs
    ensures exists k :: k in fs && InSubtree(fs, id, k) && fs[k].depth == depth
    ensures forall k :: k in fs && InSubtree(fs, id, k) ==> fs[k].depth <= depth
  {
    var todo := set k: Id | k in fs && InSubtree(fs, id, k);
    depth := fs[id].depth;
    while todo != {}
      invariant todo <= set k | k in fs && InSubtree(fs, id, k)
      invariant exists k :: k in fs && InSubtree(fs, id, k) && fs[k].depth == depth
      invariant forall k :: k in fs && InSubtree(fs, id, k) && k !in todo ==> fs[k].depth <= depth
      decreases todo
    {
      var k: Id :| k in todo;
      depth := if fs[k].depth > depth then fs[k].depth else depth;
      todo := todo - {k};
    }
  }

  /** Rewrites path and depth of every row of the subtree, then re-hangs its root. */
  method Relocate(fs: map<Id, Folder>, id: Id, dest: Option<Id>) returns (work: map<Id, Folder>)
    requires id in fs && (dest.Some? ==> dest.value in fs)
    ensures work == Moved(fs, id, dest)
  {
    var oldPrefix, delta := fs[id].path, DepthUnder(fs, dest) - fs[id].depth;
    var newPrefix := PathUnder(fs, dest, id);
    var todo := set k: Id | k in fs && InSubtree(fs, id, k);
    work := fs;
    hide PathUnder, DepthUnder, InSubtree, PartlyMoved, Rebased, Moved;
    while todo != {}
      invariant PartlyMoved(fs, work, id, oldPrefix, newPrefix, delta, todo)
      decreases todo
    {
      var k: Id :| k in todo;
      work := work[k := Rebased(work[k], oldPrefix, newPrefix, delta)];
      todo := todo - {k};
    }
    AllMoved(fs, work, id, dest);
    work := work[id := work[id].(parent := dest)];
  }

  /** The subtree's rows are rewritten but for those in `todo`. */
  ghost predicate PartlyMoved(fs: map<Id, Folder>, work: map<Id, Folder>, id: Id, oldPrefix: string, newPrefix: string,
                              delta: int, todo: set<Id>)
    requires id in fs && oldPrefix == fs[id].path
  {
    && work.Keys == fs.Keys
    && (forall k :: k in todo ==> k in fs && InSubtree(fs, id, k))
    && forall k :: k in fs ==>
         work[k] == if InSubtree(fs, id, k) && k !in todo then Rebased(fs[k], oldPrefix, newPrefix, delta) else fs[k]
  }

  lemma AllMoved(fs: map<Id, Folder>, work: map<Id, Folder>, id: Id, dest: Option<Id>)
    requires id in fs && (dest.Some? ==> dest.value in fs)
    requires PartlyMoved(fs, work, id, fs[id].path, PathUnder(fs, dest, id), DepthUnder(fs, dest) - fs[id].depth, {})
    ensures id in work && work[id := work[id].(parent := dest)] == Moved(fs, id, dest)
  {}

  // ---- the service -----------------------------------------------------------------

  /** Foreign keys: folders and documents belong to existing collections, and a filed document lies in a
      folder of its own collection. */
  ghost predicate Placed(collections: set<Id>, folders: map<Id, Folder>, documents: map<Id, Document>) {
    && (forall f :: f in folders ==> folders[f].collection in collections)
    && (forall d :: d in documents ==> documents[d].collection in collections)
    && forall d :: d in documents && documents[d].folder.Some? ==>
         && documents[d].folder.value in folders
         && folders[documents[d].folder.value].collection == documents[d].collection
  }

  lemma EditKeepsPlaced(cs: set<Id>, fs: map<Id, Folder>, docs: map<Id, Document>, work: map<Id, Folder>, id: Id)
    requires Placed(cs, fs, docs) && OneRowEdited(fs, work, id)
    ensures Placed(cs, work, docs)
  {}

  lemma DeleteKeepsPlaced(cs: set<Id>, fs: map<Id, Folder>, docs: map<Id, Document>, id: Id)
    requires Placed(cs, fs, docs) && forall d :: d in docs ==> docs[d].folder != Some(id)
    ensures Placed(cs, fs - {id}, docs)
  {}

  /** The move half of a patch, on the table the rename has already been written to. */
  method MoveInto(work: map<Id, Folder>, id: Id, parent: Option<Id>, toRoot: bool)
    returns (refusal: Option<Refusal>, moved: map<Id, Folder>)
    requires AllLinked(work) && id in work && (toRoot || parent.Some?)
    ensures refusal.None? <==> MayMove(work, id, Destination(work, id, parent, toRoot)) && !BreaksConstraint(work)
    ensures refusal.None? ==> moved == Moved(work, id, Destination(work, id, parent, toRoot))
    ensures refusal == Some(ConstraintViolated) <==> BreaksConstraint(work) && (toRoot || parent != Some(id))
    ensures refusal == Some(NotFound) <==> !BreaksConstraint(work) && !toRoot && parent.value !in work
    ensures refusal == Some(OtherCollection) <==>
              !BreaksConstraint(work) && !toRoot && parent.value in work &&
                work[parent.value].collection != work[id].collection
    ensures refusal == Some(OwnSubtree) <==>
              && !toRoot && parent.value in work && work[parent.value].collection == work[id].collection
              && IsAncestorOrSelf(work, id, parent.value) && (parent.value == id || !BreaksConstraint(work))
    ensures refusal.Some? ==> refusal.value in {ConstraintViolated, NotFound, OtherCollection, OwnSubtree, TooDeep}
    ensures refusal.Some? && refusal != Some(ConstraintViolated) ==>
              !MayMove(work, id, Destination(work, id, parent, toRoot))
  {
    hide Linked, AllLinked, Moved, PathUnder, BreaksConstraint, InSubtree, IsAncestorOrSelf;
    moved := work;
    var dest: Option<Id> := None;
    AncestorsByPath(work, id);
    SelfInSubtree(work, id);
    if !toRoot && parent.value == id { // at hand already, so looking it up flushes nothing
      return Some(OwnSubtree), moved;
    }
    if BreaksConstraint(work) {
      return Some(ConstraintViolated), moved;
    }
    if !toRoot {
      if parent.value !in work {
        return Some(NotFound), moved;
      }
      if work[parent.value].collection != work[id].collection {
        return Some(OtherCollection), moved;
      }
      if InSubtree(work, id, parent.value) {
        return Some(OwnSubtree), moved;
      }
      dest := parent;
    }
    var deepest := Deepest(work, id);
    if DepthUnder(work, dest) + (deepest - work[id].depth) > MAX_FOLDER_DEPTH {
      return Some(TooDeep), moved;
    }
    moved := Relocate(work, id, dest);
    return None, moved;
  }

  lemma MayMoveMeansPresent(fs: map<Id, Folder>, id: Id, dest: Option<Id>)
    requires AllLinked(fs) && id in fs && MayMove(fs, id, dest)
    ensures dest.Some? ==> dest.value in fs
  {}

  lemma SelfInSubtree(fs: map<Id, Folder>, id: Id)
    requires id in fs
    ensures InSubtree(fs, id, id)
  {}

  // ---- bulk requests -------------------------------------------------------------------

  datatype BulkRequest = MoveTo(folder: Option<Id>, collection: Option<Id>, reindex: bool) | EraseAll | ReprocessAll
  /** A request with its destination settled: a named folder decides the collection. */
  datatype BulkAction = Move(folder: Option<Id>, collection: Id, reindex: bool) | Erase | Reprocess

  datatype Settlement = Settled(action: BulkAction) | Unsettled(reason: Refusal)

  function Settle(fs: map<Id, Folder>, request: BulkRequest): Settlement {
    match request
    case MoveTo(Some(f), _, reindex) =>
      if f in fs then Settled(Move(Some(f), fs[f].collection, reindex)) else Unsettled(NotFound)
    case MoveTo(None, Some(c), reindex) => Settled(Move(None, c, reindex))
    case MoveTo(None, None, _) => Unsettled(NoTarget)
    case EraseAll => Settled(Erase)
    case ReprocessAll => Settled(Reprocess)
  }

  /** What a request comes to: a named folder stands for its collection, and no folder for a collection's top. */
  ghost predicate AsksFor(fs: map<Id, Folder>, request: BulkRequest, action: BulkAction) {
    && (request.EraseAll? <==> action.Erase?) && (request.ReprocessAll? <==> action.Reprocess?)
    && (request.MoveTo? ==>
          && action.Move? && action.folder == request.folder && action.reindex == request.reindex
          && match request.folder
             case Some(f) => f in fs && action.collection == fs[f].collection
             case None => request.collection == Some(action.collection))
  }

  /** Whether the request turns this document away. */
  predicate TurnedAway(docs: map<Id, Document>, id: Id, action: BulkAction) {
    || id !in docs
    || (action.Move? && docs[id].collection != action.collection &&
        (!action.reindex || docs[id].status !in {Indexed, Failed, Uploaded}))
  }

  /** The documents table once the requests in `done` are carried out. */
  ghost predicate CarriedOut(before: map<Id, Document>, after: map<Id, Document>, done: seq<Id>, action: BulkAction) {
    && after.Keys == (if action.Erase? then before.Keys - Elements(done) else before.Keys)
    && (forall id :: id in after && id !in done ==> after[id] == before[id])
    && forall id :: id in after && id in done ==>
         match action
         case Move(folder, collection, _) =>
           var status := if before[id].collection == collection then before[id].status else Uploaded;
           after[id] == before[id].(collection := collection, folder := folder, status := status)
         case Reprocess => after[id] == before[id].(status := Uploaded)
         case Erase => true
  }

  /** Documents to index again: every one asked for on reprocess, on a move those that changed collection. */
  ghost predicate ReindexQueue(before: map<Id, Document>, queued: seq<Id>, done: seq<Id>, action: BulkAction) {
    match action
    case Move(_, collection, _) =>
      NoDuplicates(queued) && forall id :: id in queued <==>
        id in done && id in before && before[id].collection != collection
    case Erase => queued == []
    case Reprocess => queued == done
  }

  /** A document already carried out once is judged the same again; any other has not changed yet. */
  lemma SameVerdict(before: map<Id, Document>, work: map<Id, Document>, done: seq<Id>, action: BulkAction, id: Id)
    requires CarriedOut(before, work, done, action) && forall k :: k in done ==> !TurnedAway(before, k, action)
    requires id in before && !action.Erase?
    ensures id in work
    ensures action.Move? ==> (TurnedAway(before, id, action) <==> TurnedAway(work, id, action))
    ensures action.Reprocess? ==> !TurnedAway(before, id, action)
  {}

  lemma CarryOutOne(before: map<Id, Document>, work: map<Id, Document>, done: seq<Id>, queued: seq<Id>,
                    action: BulkAction, id: Id)
    requires CarriedOut(before, work, done, action) && ReindexQueue(before, queued, done, action)
    requires !TurnedAway(before, id, action)
    ensures action.Erase? ==> CarriedOut(before, work - {id}, done + [id], action)
    ensures action.Reprocess? ==>
              id in work && CarriedOut(before, work[id := work[id].(status := Uploaded)], done + [id], action)
    ensures action.Move? ==>
              id in work && CarriedOut(before, MovedDocument(work, id, action.folder, action.collection), done + [id],
                                       action)
  {}

  function MovedDocument(docs: map<Id, Document>, id: Id, folder: Option<Id>, collection: Id): map<Id, Document>
    requires id in docs
  {
    docs[id := if docs[id].collection == collection then docs[id].(folder := folder)
               else docs[id].(collection := collection, folder := folder, status := Uploaded)]
  }

  lemma QueueOne(before: map<Id, Document>, work: map<Id, Document>, done: seq<Id>, queued: seq<Id>,
                 action: BulkAction, id: Id)
    requires CarriedOut(before, work, done, action) && ReindexQueue(before, queued, done, action)
    requires !TurnedAway(before, id, action)
    ensures action.Erase? ==> ReindexQueue(before, queued, done + [id], action)
    ensures action.Reprocess? ==> ReindexQueue(before, queued + [id], done + [id], action)
    ensures action.Move? ==>
              && id in work
              && var more := if work[id].collection != action.collection then queued + [id] else queued;
                 ReindexQueue(before, more, done + [id], action)
  {}

  /** A finished or waiting document of another collection. */
  ghost predicate MovesAcross(docs: map<Id, Document>, id: Id, collection: Id) {
    id in docs && docs[id].collection != collection && docs[id].status in {Indexed, Failed, Uploaded}
  }

  lemma QueuedIff(before: map<Id, Document>, ids: seq<Id>, done: seq<Id>, failed: seq<Id>, queued: seq<Id>,
                  action: BulkAction)
    requires Verdicts(before, ids, done, failed, action) && ReindexQueue(before, queued, done, action) && action.Move?
    ensures queued != [] <==> action.reindex && exists id :: id in ids && MovesAcross(before, id, action.collection)
  {
    VerdictsMean(before, ids, done, failed, action);
    hide Verdicts;
    if queued != [] {
      assert queued[0] in queued;
      assert MovesAcross(before, queued[0], action.collection);
    }
    if id :| action.reindex && id in ids && MovesAcross(before, id, action.collection) {
      assert id in done && id in queued;
    }
  }

  ghost predicate Verdicts(before: map<Id, Document>, ids: seq<Id>, done: seq<Id>, failed: seq<Id>, action: BulkAction)
  {
    && done == Kept(ids, (id: Id) => !TurnedAway(before, id, action))
    && failed == Kept(ids, (id: Id) => TurnedAway(before, id, action))
  }

  /** Each requested id ends in exactly one of the lists, where it stood. */
  lemma VerdictsMean(before: map<Id, Document>, ids: seq<Id>, done: seq<Id>, failed: seq<Id>, action: BulkAction)
    requires Verdicts(before, ids, done, failed, action)
    ensures forall id :: id in done <==> id in ids && !TurnedAway(before, id, action)
    ensures forall id :: id in failed <==> id in ids && TurnedAway(before, id, action)
    ensures exists at :: InStoredOrder(ids, done, at)
    ensures exists at :: InStoredOrder(ids, failed, at)
  {
    KeptInOrder(ids, (id: Id) => !TurnedAway(before, id, action));
    KeptInOrder(ids, (id: Id) => TurnedAway(before, id, action));
    hide InStoredOrder;
  }

  lemma VerdictOne(before: map<Id, Document>, ids: seq<Id>, i: nat, done: seq<Id>, failed: seq<Id>, action: BulkAction)
    requires i < |ids| && Verdicts(before, ids[..i], done, failed, action)
    ensures TurnedAway(before, ids[i], action) ==> Verdicts(before, ids[..i + 1], done, failed + [ids[i]], action)
    ensures !TurnedAway(before, ids[i], action) ==> Verdicts(before, ids[..i + 1], done + [ids[i]], failed, action)
  {
    assert ids[..i + 1] == ids[..i] + [ids[i]];
    KeptAppend(ids[..i], ids[i], (id: Id) => !TurnedAway(before, id, action));
    KeptAppend(ids[..i], ids[i], (id: Id) => TurnedAway(before, id, action));
  }

  /** The loop over the requested ids, on the rows as loaded. */
  method CarryOut(before: map<Id, Document>, ids: seq<Id>, action: BulkAction)
    returns (work: map<Id, Document>, done: seq<Id>, failed: seq<Id>, queued: seq<Id>)
    ensures Verdicts(before, ids, done, failed, action)
    ensures CarriedOut(before, work, done, action) && ReindexQueue(before, queued, done, action)
  {
    work, done, failed, queued := before, [], [], [];
    for i := 0 to |ids|
      invariant Verdicts(before, ids[..i], done, failed, action)
      invariant CarriedOut(before, work, done, action) && ReindexQueue(before, queued, done, action)
    {
      var id := ids[i];
      VerdictOne(before, ids, i, done, failed, action);
      if id !in before {
        failed := failed + [id];
        continue;
      }
      if !action.Erase? {
        VerdictsMean(before, ids[..i], done, failed, action);
        SameVerdict(before, work, done, action, id);
      }
      hide CarriedOut, ReindexQueue, Verdicts;
      if action.Move? && work[id].collection != action.collection &&
         (!action.reindex || work[id].status !in {Indexed, Failed, Uploaded}) {
        failed := failed + [id];
        continue;
      }
      CarryOutOne(before, work, done, queued, action, id);
      QueueOne(before, work, done, queued, action, id);
      done := done + [id];
      match action {
        case Move(folder, collection, _) =>
          if work[id].collection != collection {
            queued := queued + [id];
            work := work[id := work[id].(collection := collection, folder := folder, status := Uploaded)];
          } else {
            work := work[id := work[id].(folder := folder)];
          }
        case Erase =>
          work := work - {id};
        case Reprocess =>
          work := work[id := work[id].(status := Uploaded)];
          queued := queued + [id];
      }
    }
    assert ids[..|ids|] == ids;
  }

  lemma BulkKeepsPlaced(cs: set<Id>, fs: map<Id, Folder>, before: map<Id, Document>, after: map<Id, Document>,
                        done: seq<Id>, queued: seq<Id>, action: BulkAction)
    requires Placed(cs, fs, before) && CarriedOut(before, after, done, action) &&
             ReindexQueue(before, queued, done, action)
    requires action.Move? && action.folder.Some? ==>
               action.folder.value in fs && fs[action.folder.value].collection == action.collection
    requires action.Move? && action.collection !in cs ==> queued == []
    ensures Placed(cs, fs, after)
  {
    forall d | d in after ensures after[d].collection in cs {
      if action.Move? && d in done && before[d].collection != action.collection {
        assert d in queued;
      }
    }
  }

  class FolderStore {
    var collections: set<Id>
    var folders: map<Id, Folder>
    var documents: map<Id, Document>

    ghost predicate Valid()
      reads this
    {
      Tree(folders) && Placed(collections, folders, documents)
    }

    constructor (collections: set<Id>)
      ensures Valid() && this.collections == collections && folders == map[] && documents == map[]
    {
      this.collections, folders, documents := collections, map[], map[];
    }

    /** `freshId` is the generated uuid. */
    method Create(cid: Id, name: string, parent: Option<Id>, freshId: Id) returns (r: Outcome)
      requires Valid() && freshId !in folders
      modifies this`folders
      ensures Valid()
      ensures r.Refused? ==> folders == old(folders)
      ensures r.Done? <==>
                && cid in collections
                && (parent.Some? ==>
                      && parent.value in old(folders) && old(folders)[parent.value].collection == cid
                      && old(folders)[parent.value].depth < MAX_FOLDER_DEPTH)
                && forall k :: k in old(folders) && old(folders)[k].collection == cid &&
                     old(folders)[k].parent == parent
                     ==> old(folders)[k].name != Strip(name)
      ensures r == Refused(NotFound) <==> cid !in collections || (parent.Some? && parent.value !in old(folders))
      ensures r == Refused(OtherCollection) <==>
                && cid in collections && parent.Some? && parent.value in old(folders)
                && old(folders)[parent.value].collection != cid
      ensures r == Refused(TooDeep) <==>
                && cid in collections && parent.Some? && parent.value in old(folders)
                && old(folders)[parent.value].collection == cid
                && old(folders)[parent.value].depth >= MAX_FOLDER_DEPTH
      ensures r.Done? || r.reason in {NotFound, OtherCollection, TooDeep, NameTaken}
      ensures r.Done? ==>
                && freshId in folders && folders - {freshId} == old(folders)
                && folders[freshId].collection == cid && folders[freshId].parent == parent
                && folders[freshId].name == Strip(name)
                && Chain(folders, freshId) == ParentChain(old(folders), parent) + [freshId]
    {
      hide Linked, Strip, Chain, ParentChain, PathUnder, SiblingNamesUnique, AllLinked;
      if cid !in collections {
        return Refused(NotFound);
      }
      if parent.Some? {
        if parent.value !in folders {
          return Refused(NotFound);
        }
        if folders[parent.value].collection != cid {
          return Refused(OtherCollection);
        }
        if folders[parent.value].depth >= MAX_FOLDER_DEPTH {
          return Refused(TooDeep);
        }
      }
      if SiblingTaken(folders, cid, parent, Strip(name), None) {
        return Refused(NameTaken);
      }
      var folder := Folder(cid, parent, Strip(name), PathUnder(folders, parent, freshId), DepthUnder(folders, parent));
      InsertKeepsTree(folders, freshId, folder);
      folders := folders[freshId := folder];
      return Done;
    }

    /** Files an uploaded document: in an existing folder of its own collection, or in none. */
    method Upload(cid: Option<Id>, folder: Option<Id>, freshId: Id, size: nat, now: int, fileOk: bool, queued: bool)
      returns (r: Outcome)
      requires Valid() && freshId !in documents
      modifies this`documents
      ensures Valid()
      ensures r.Refused? ==> documents == old(documents)
      ensures r.Done? <==>
                && cid.Some? && cid.value in collections && fileOk
                && (folder.Some? ==> folder.value in folders && folders[folder.value].collection == cid.value)
      ensures r == Refused(NoTarget) <==> cid.None?
      ensures r == Refused(NotFound) <==> cid.Some? && cid.value !in collections
      ensures r == Refused(OtherCollection) <==>
                && cid.Some? && cid.value in collections && folder.Some?
                && (folder.value in folders ==> folders[folder.value].collection != cid.value)
      ensures r.Done? || r.reason in {NoTarget, NotFound, OtherCollection, FileTurnedAway}
      ensures r.Done? ==>
                var status := if queued then Uploaded else Failed;
                documents == old(documents)[freshId := Document(cid.value, folder, status, true, size, now)]
    {
      hide Tree;
      if cid.None? {
        return Refused(NoTarget);
      }
      if cid.value !in collections {
        return Refused(NotFound);
      }
      if folder.Some? && (folder.value !in folders || folders[folder.value].collection != cid.value) {
        return Refused(OtherCollection);
      }
      if !fileOk {
        return Refused(FileTurnedAway);
      }
      documents := documents[freshId := Document(cid.value, folder, Uploaded, true, size, now)];
      if !queued {
        documents := documents[freshId := documents[freshId].(status := Failed)];
      }
      return Done;
    }

    method Update(id: Id, name: Option<string>, parent: Option<Id>, toRoot: bool) returns (r: Outcome)
      requires Valid()
      modifies this`folders
      ensures Valid()
      ensures r.Refused? ==> folders == old(folders)
      ensures r.Done? <==> Acceptable(old(folders), id, name, parent, toRoot)
      ensures r.Done? ==> folders == Patched(old(folders), id, name, parent, toRoot)
      ensures (toRoot || parent.Some?) && Fits(old(folders), id, name, parent, toRoot) ==>
                (r.Done? <==> !ClashesInPlace(old(folders), id, name))
      ensures r.Done? ==>
                && id in folders && folders.Keys == old(folders).Keys
                && folders[id].name == (if name.Some? then Strip(name.value) else old(folders)[id].name)
                && folders[id].parent ==
                   (if toRoot then None else if parent.Some? then parent else old(folders)[id].parent)
                && folders[id].collection == old(folders)[id].collection
                && forall k :: k in folders && k != id ==>
                     && folders[k].name == old(folders)[k].name && folders[k].parent == old(folders)[k].parent
                     && folders[k].collection == old(folders)[k].collection
      ensures r == Refused(ConstraintViolated) <==>
                && id in old(folders)
                && (|| ((toRoot || (parent.Some? && parent != Some(id))) && ClashesInPlace(old(folders), id, name))
                    || (&& LegalMove(old(folders), id, name, parent, toRoot)
                        && DestinationTaken(old(folders), id, name, parent, toRoot)
                        && Destination(old(folders), id, parent, toRoot).Some?))
      ensures r == Refused(NotFound) <==>
                || id !in old(folders)
                || (!toRoot && parent.Some? && parent.value !in old(folders) && !ClashesInPlace(old(folders), id, name))
      ensures r == Refused(OtherCollection) <==>
                && id in old(folders) && !toRoot && parent.Some? && parent.value in old(folders)
                && old(folders)[parent.value].collection != old(folders)[id].collection
                && !ClashesInPlace(old(folders), id, name)
      ensures r == Refused(OwnSubtree) <==>
                && id in old(folders) && !toRoot && parent.Some? && parent.value in old(folders)
                && old(folders)[parent.value].collection == old(folders)[id].collection
                && AllLinked(Renamed(old(folders), id, name))
                && IsAncestorOrSelf(Renamed(old(folders), id, name), id, parent.value)
                && (parent.value == id || !ClashesInPlace(old(folders), id, name))
      ensures r.Done? ||
              r.reason in {NotFound, OtherCollection, OwnSubtree, TooDeep, NameTaken, ConstraintViolated}
      ensures r == Refused(NameTaken) <==>
                && id in old(folders)
                && LegalMove(old(folders), id, name, parent, toRoot)
                && (toRoot || parent.Some? ==> !ClashesInPlace(old(folders), id, name))
                && DestinationTaken(old(folders), id, name, parent, toRoot)
                && Destination(old(folders), id, parent, toRoot).None?
    {
      hide Moved, PathUnder, Linked, Strip, SiblingTaken, BreaksConstraint, Renamed, AllLinked, SiblingNamesUnique,
           MayMove, Placed, OneRowEdited, ClashesInPlace, IsAncestorOrSelf;
      if id !in folders {
        return Refused(NotFound);
      }
      RenameKeepsLinks(folders, id, name);
      RenameBreaksIff(folders, id, name);
      var work := Renamed(folders, id, name);
      if toRoot || parent.Some? {
        var refusal, moved := MoveInto(work, id, parent, toRoot);
        if refusal.Some? {
          return Refused(refusal.value);
        }
        assert MayMove(work, id, Destination(work, id, parent, toRoot));
        MayMoveMeansPresent(work, id, Destination(work, id, parent, toRoot));
        work := moved;
      }
      PatchEditsOneRow(folders, id, name, parent, toRoot);
      assert work == Patched(folders, id, name, parent, toRoot);
      RenameEditsOneRow(folders, id, name);
      SiblingCheckIgnoresMove(folders, Renamed(folders, id, name), work, id, Destination(folders, id, parent, toRoot));
      EditKeepsNamesUnique(folders, work, id);
      if BreaksConstraint(work) {
        return Refused(ConstraintViolated);
      }
      if SiblingTaken(work, work[id].collection, work[id].parent, work[id].name, Some(id)) {
        return Refused(NameTaken);
      }
      PatchKeepsTree(folders, id, name, parent, toRoot);
      EditKeepsPlaced(collections, folders, documents, work, id);
      PatchedRows(folders, id, name, parent, toRoot);
      folders := work;
      return Done;
    }

    method Delete(id: Id) returns (r: Outcome)
      requires Valid()
      modifies this`folders
      ensures Valid()
      ensures r.Refused? ==> folders == old(folders)
      ensures r.Done? <==>
                && id in old(folders)
                && (forall k :: k in old(folders) ==> old(folders)[k].parent != Some(id))
                && (forall d :: d in documents ==> documents[d].folder != Some(id))
      ensures r == Refused(NotFound) <==> id !in old(folders)
      ensures r.Done? || r.reason in {NotFound, NotEmpty}
      ensures r.Done? ==> folders == old(folders) - {id}
    {
      if id !in folders {
        return Refused(NotFound);
      }
      hide Linked, AllLinked, SiblingNamesUnique, Placed;
      var docs := set d | d in documents && documents[d].folder == Some(id);
      var children := set k | k in folders && folders[k].parent == Some(id);
      assert (docs == {}) == (forall d :: d in documents ==> documents[d].folder != Some(id)) by {
        assert forall d :: d in documents && documents[d].folder == Some(id) ==> d in docs;
      }
      assert (children == {}) == (forall k :: k in folders ==> folders[k].parent != Some(id)) by {
        assert forall k :: k in folders && folders[k].parent == Some(id) ==> k in children;
      }
      if docs != {} || children != {} {
        return Refused(NotEmpty);
      }
      DeleteKeepsTree(folders, id);
      DeleteKeepsPlaced(collections, folders, documents, id);
      folders := folders - {id};
      return Done;
    }

    /** Judged one by one: each id ends in exactly one of done and failed, and only the done ones change. */
    method Bulk(ids: seq<Id>, request: BulkRequest)
      returns (r: Outcome, done: seq<Id>, failed: seq<Id>, queued: seq<Id>)
      requires Valid()
      modifies this`documents
      ensures Valid()
      ensures r.Refused? ==> documents == old(documents)
      ensures r == Refused(NotFound) <==> request.MoveTo? && request.folder.Some? && request.folder.value !in folders
      ensures r == Refused(NoTarget) <==> request.MoveTo? && request.folder.None? && request.collection.None?
      ensures r == Refused(ConstraintViolated) <==>
                && request.MoveTo? && request.folder.None? && request.collection.Some?
                && request.collection.value !in collections && request.reindex
                && exists id :: id in ids && MovesAcross(old(documents), id, request.collection.value)
      ensures r.Done? || r.reason in {NotFound, NoTarget, ConstraintViolated}
      ensures r.Done? ==>
                exists action ::
                  && AsksFor(folders, request, action)
                  && Verdicts(old(documents), ids, done, failed, action)
                  && CarriedOut(old(documents), documents, done, action)
                  && ReindexQueue(old(documents), queued, done, action)
    {
      done, failed, queued := [], [], [];
      var settlement := Settle(folders, request);
      if settlement.Unsettled? {
        return Refused(settlement.reason), done, failed, queued;
      }
      var action := settlement.action;
      assert AsksFor(folders, request, action);
      assert Placed(collections, folders, documents);
      hide CarriedOut, ReindexQueue, Verdicts, Tree, Placed, AsksFor;
      var work;
      work, done, failed, queued := CarryOut(documents, ids, action);
      if action.Move? {
        QueuedIff(documents, ids, done, failed, queued, action);
      }
      if action.Move? && action.collection !in collections && queued != [] {
        return Refused(ConstraintViolated), done, failed, queued;
      }
      BulkKeepsPlaced(collections, folders, documents, work, done, queued, action);
      documents := work;
      return Done, done, failed, queued;
    }
  }
}
