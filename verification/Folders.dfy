/** The folder tree of a document collection. Path string, depth, parent pointer, collection and sibling
    names are stored redundantly on every row and must agree after every request. */
module FolderTree {
  import opened Basics

  const MAX_FOLDER_DEPTH := 8

  /** A printed uuid. It holds no separator (and none of LIKE's wildcards, so `LIKE path%` is a prefix test). */
  type Id = s: string | s != "" && '/' !in s witness "0"

  datatype Folder = Folder(collection: Id, parent: Option<Id>, name: string, path: string, depth: int)

  datatype Refusal = NotFound | OtherCollection | OwnSubtree | TooDeep | NameTaken | NotEmpty
                   | NoTarget | FileTurnedAway | ConstraintViolated
  datatype Outcome = Done | Refused(reason: Refusal)

  // ---- paths --------------------------------------------------------------------

  function Joined(ids: seq<Id>): string {
    if ids == [] then "" else ids[0] + "/" + Joined(ids[1..])
  }

  /** The materialized path of a chain of ids, root first: "/a/b/". */
  function PathOf(ids: seq<Id>): string {
    "/" + Joined(ids)
  }

  lemma {:induction false} JoinedAppend(ids: seq<Id>, id: Id)
    ensures Joined(ids + [id]) == Joined(ids) + id + "/"
  {
    if ids == [] {
      assert Joined([id]) == id + "/" + Joined([]);
    } else {
      JoinedAppend(ids[1..], id);
      assert (ids + [id])[1..] == ids[1..] + [id];
    }
  }

  /** A separator-free head is recovered from the text: equal texts have equal heads. */
  lemma HeadsAgree(a: Id, rest: string, b: Id, tail: string)
    requires a + "/" + rest <= b + "/" + tail
    ensures a == b && rest <= tail
  {
    var left, right := a + "/" + rest, b + "/" + tail;
    assert right[|a|] == '/' && forall k :: 0 <= k < |a| ==> right[k] == left[k] == a[k] && a[k] in a;
    assert right[|b|] == '/' && forall k :: 0 <= k < |b| ==> right[k] == b[k] && b[k] in b;
    assert |a| == |b|;
    assert a == right[..|a|] == b;
    assert rest == left[|a| + 1..] && tail == right[|a| + 1..];
  }

  /** Text prefix and id-sequence prefix are the same relation. */
  lemma {:induction false} PathPrefixIff(a: seq<Id>, b: seq<Id>)
    ensures Joined(a) <= Joined(b) <==> a <= b
    ensures PathOf(a) <= PathOf(b) <==> a <= b
  {
    if a == [] || b == [] {
    } else {
      PathPrefixIff(a[1..], b[1..]);
      if a[0] == b[0] {
        assert a == [a[0]] + a[1..] && b == [b[0]] + b[1..];
        var head := a[0] + "/";
        assert Joined(a) == head + Joined(a[1..]) && Joined(b) == head + Joined(b[1..]);
        if Joined(a) <= Joined(b) {
          HeadsAgree(a[0], Joined(a[1..]), b[0], Joined(b[1..]));
        }
      } else if Joined(a) <= Joined(b) {
        HeadsAgree(a[0], Joined(a[1..]), b[0], Joined(b[1..]));
      }
    }
    assert PathOf(a)[1..] == Joined(a) && PathOf(b)[1..] == Joined(b);
  }

  // ---- the tree -------------------------------------------------------------------

  /** One row agrees with its parent's row. */
  ghost predicate Linked(fs: map<Id, Folder>, id: Id)
    requires id in fs
  {
    && 1 <= fs[id].depth <= MAX_FOLDER_DEPTH
    && match fs[id].parent
       case None => fs[id].depth == 1 && fs[id].path == "/" + id + "/"
       case Some(p) =>
         && p in fs
         && fs[id].collection == fs[p].collection
         && fs[id].depth == fs[p].depth + 1
         && fs[id].path == fs[p].path + id + "/"
  }

  ghost predicate AllLinked(fs: map<Id, Folder>) {
    forall id :: id in fs ==> Linked(fs, id)
  }

  predicate Siblings(a: Folder, b: Folder) {
    a.collection == b.collection && a.parent == b.parent
  }

  ghost predicate SiblingNamesUnique(fs: map<Id, Folder>) {
    forall a, b :: a in fs && b in fs && a != b && Siblings(fs[a], fs[b]) ==> fs[a].name != fs[b].name
  }

  ghost predicate Tree(fs: map<Id, Folder>) {
    AllLinked(fs) && SiblingNamesUnique(fs)
  }

  /** The ids from the root down to id. Depth falls along parent pointers, so following them ends. */
  ghost function Chain(fs: map<Id, Folder>, id: Id): (c: seq<Id>)
    requires AllLinked(fs) && id in fs
    ensures |c| == fs[id].depth && c[|c| - 1] == id
    ensures PathOf(c) == fs[id].path
    ensures forall k :: 0 <= k < |c| ==> c[k] in fs && fs[c[k]].depth == k + 1
    decreases fs[id].depth
  {
    assert Linked(fs, id);
    match fs[id].parent
    case None =>
      assert Joined([id]) == id + "/" + Joined([]);
      [id]
    case Some(p) =>
      JoinedAppend(Chain(fs, p), id);
      Chain(fs, p) + [id]
  }

  lemma ChainStep(fs: map<Id, Folder>, id: Id, p: Id)
    requires AllLinked(fs) && id in fs && fs[id].parent == Some(p)
    ensures p in fs && Chain(fs, id) == Chain(fs, p) + [id]
  {}

  ghost predicate IsAncestorOrSelf(fs: map<Id, Folder>, a: Id, b: Id)
    requires AllLinked(fs) && a in fs && b in fs
  {
    a in Chain(fs, b)
  }

  lemma {:induction false} ChainPrefix(fs: map<Id, Folder>, id: Id, k: nat)
    requires AllLinked(fs) && id in fs && k < fs[id].depth
    ensures Chain(fs, Chain(fs, id)[k]) == Chain(fs, id)[..k + 1]
    decreases fs[id].depth
  {
    var c := Chain(fs, id);
    assert Linked(fs, id);
    if k == |c| - 1 {
      assert c[..k + 1] == c;
    } else {
      var p := fs[id].parent.value;
      ChainPrefix(fs, p, k);
      assert c == Chain(fs, p) + [id];
    }
  }

  /** The subtree query: `path LIKE root.path%`. */
  predicate InSubtree(fs: map<Id, Folder>, root: Id, id: Id)
    requires root in fs && id in fs
  {
    fs[root].path <= fs[id].path
  }

  /** Subtree queries by path prefix mean "descendant": the prefix test holds exactly of a folder and its ancestors. */
  lemma PathPrefixIffAncestor(fs: map<Id, Folder>, a: Id, b: Id)
    requires AllLinked(fs) && a in fs && b in fs
    ensures InSubtree(fs, a, b) <==> IsAncestorOrSelf(fs, a, b)
  {
    var ca, cb := Chain(fs, a), Chain(fs, b);
    PathPrefixIff(ca, cb);
    if a in cb {
      ChainPrefix(fs, b, Position(cb, a));
    }
  }

  /** No folder sits on its own ancestor chain twice, so the parent relation has no cycle. */
  lemma ParentsAcyclic(fs: map<Id, Folder>, id: Id)
    requires AllLinked(fs) && id in fs
    ensures NoDuplicates(Chain(fs, id))
    ensures forall p :: fs[id].parent == Some(p) ==> p in fs && !IsAncestorOrSelf(fs, id, p)
  {}

  // ---- moving a subtree --------------------------------------------------------------

  function PathUnder(fs: map<Id, Folder>, parent: Option<Id>, id: Id): string
    requires parent.Some? ==> parent.value in fs
  {
    (if parent.Some? then fs[parent.value].path else "/") + id + "/"
  }

  function DepthUnder(fs: map<Id, Folder>, parent: Option<Id>): int
    requires parent.Some? ==> parent.value in fs
  {
    if parent.Some? then fs[parent.value].depth + 1 else 1
  }

  /** One row of a moved subtree: its path's prefix is replaced and its depth shifted. */
  function Rebased(f: Folder, oldPrefix: string, newPrefix: string, delta: int): Folder
    requires |oldPrefix| <= |f.path|
  {
    f.(path := newPrefix + f.path[|oldPrefix|..], depth := f.depth + delta)
  }

  /** The table after moving `root` (with everything under it) to `parent`. */
  function Moved(fs: map<Id, Folder>, root: Id, parent: Option<Id>): map<Id, Folder>
    requires root in fs && (parent.Some? ==> parent.value in fs)
  {
    var newPrefix := PathUnder(fs, parent, root);
    var delta := DepthUnder(fs, parent) - fs[root].depth;
    var rebased := map id | id in fs ::
      if InSubtree(fs, root, id) then Rebased(fs[id], fs[root].path, newPrefix, delta) else fs[id];
    rebased[root := rebased[root].(parent := parent)]
  }

  /** The destination exists, lies in the same collection and outside the moved subtree, and everything fits. */
  ghost predicate MayMove(fs: map<Id, Folder>, root: Id, parent: Option<Id>)
    requires AllLinked(fs) && root in fs
  {
    && (parent.Some? ==>
          && parent.value in fs
          && fs[parent.value].collection == fs[root].collection
          && !IsAncestorOrSelf(fs, root, parent.value))
    && forall id :: id in fs && IsAncestorOrSelf(fs, root, id) ==>
         DepthUnder(fs, parent) + fs[id].depth - fs[root].depth <= MAX_FOLDER_DEPTH
  }

  lemma SubtreeParent(fs: map<Id, Folder>, root: Id, id: Id)
    requires AllLinked(fs) && root in fs && id in fs && id != root
    ensures Linked(fs, id)
    ensures fs[id].parent.Some? ==> (InSubtree(fs, root, id) <==> InSubtree(fs, root, fs[id].parent.value))
    ensures fs[id].parent.None? ==> !InSubtree(fs, root, id)
    ensures InSubtree(fs, root, id) ==> fs[root].depth < fs[id].depth && |fs[root].path| <= |fs[id].path|
  {
    assert Linked(fs, id);
    PathPrefixIffAncestor(fs, root, id);
    var c := Chain(fs, id);
    if fs[id].parent.Some? {
      PathPrefixIffAncestor(fs, root, fs[id].parent.value);
      assert c == Chain(fs, fs[id].parent.value) + [id];
    }
    if root in c {
    }
  }

  lemma MovedRootLinked(fs: map<Id, Folder>, root: Id, parent: Option<Id>)
    requires AllLinked(fs) && root in fs && MayMove(fs, root, parent)
    ensures Linked(Moved(fs, root, parent), root)
  {
    var m := Moved(fs, root, parent);
    assert root in Chain(fs, root);
    assert IsAncestorOrSelf(fs, root, root);
    assert fs[root].path[|fs[root].path|..] == "";
    assert m[root].path == PathUnder(fs, parent, root);
    if parent.Some? {
      PathPrefixIffAncestor(fs, root, parent.value);
      assert m[parent.value] == fs[parent.value];
      assert Linked(fs, parent.value);
    }
  }

  lemma MovedRowLinked(fs: map<Id, Folder>, root: Id, parent: Option<Id>, id: Id)
    requires AllLinked(fs) && root in fs && MayMove(fs, root, parent) && id in fs && id != root
    ensures Linked(Moved(fs, root, parent), id)
  {
    SubtreeParent(fs, root, id);
    PathPrefixIffAncestor(fs, root, id);
    if InSubtree(fs, root, id) {
      if parent.Some? {
        assert Linked(fs, parent.value);
      }
      RebasedRowLinked(fs, root, parent, id, Moved(fs, root, parent));
    }
  }

  lemma RebasedRowLinked(fs: map<Id, Folder>, root: Id, parent: Option<Id>, id: Id, m: map<Id, Folder>)
    requires root in fs && (parent.Some? ==> parent.value in fs) && id in fs && id != root
    requires Linked(fs, id) && fs[id].parent.Some? && InSubtree(fs, root, fs[id].parent.value)
    requires InSubtree(fs, root, id) && m == Moved(fs, root, parent)
    requires 1 <= DepthUnder(fs, parent) && fs[root].depth <= fs[id].depth
    requires DepthUnder(fs, parent) + fs[id].depth - fs[root].depth <= MAX_FOLDER_DEPTH
    ensures Linked(m, id)
  {}

  /** A legal move keeps every row linked, touches only the subtree, and re-hangs each chain of the subtree
      under the new parent's chain. */
  lemma MoveKeepsLinks(fs: map<Id, Folder>, root: Id, parent: Option<Id>)
    requires AllLinked(fs) && root in fs && MayMove(fs, root, parent)
    ensures AllLinked(Moved(fs, root, parent))
    ensures Moved(fs, root, parent).Keys == fs.Keys
  {
    var m := Moved(fs, root, parent);
    forall id | id in m ensures Linked(m, id) {
      if id == root {
        MovedRootLinked(fs, root, parent);
      } else {
        MovedRowLinked(fs, root, parent, id);
      }
    }
  }

  ghost function ParentChain(fs: map<Id, Folder>, parent: Option<Id>): seq<Id>
    requires AllLinked(fs) && (parent.Some? ==> parent.value in fs)
  {
    if parent.Some? then Chain(fs, parent.value) else []
  }

  lemma {:induction false} ChainOutside(fs: map<Id, Folder>, root: Id, parent: Option<Id>, id: Id)
    requires AllLinked(fs) && root in fs && MayMove(fs, root, parent) && AllLinked(Moved(fs, root, parent))
    requires id in fs && !InSubtree(fs, root, id)
    ensures Chain(Moved(fs, root, parent), id) == Chain(fs, id)
    decreases fs[id].depth
  {
    SubtreeParent(fs, root, id);
    if fs[id].parent.None? {
    } else {
      ChainOutside(fs, root, parent, fs[id].parent.value);
    }
  }

  lemma {:induction false} ChainInside(fs: map<Id, Folder>, root: Id, parent: Option<Id>, id: Id)
    requires AllLinked(fs) && root in fs && MayMove(fs, root, parent) && AllLinked(Moved(fs, root, parent))
    requires id in fs && InSubtree(fs, root, id)
    ensures 1 <= fs[root].depth <= fs[id].depth && id in Moved(fs, root, parent)
    ensures Chain(Moved(fs, root, parent), id) == ParentChain(fs, parent) + Chain(fs, id)[fs[root].depth - 1..]
    decreases fs[id].depth
  {
    hide AllLinked, Linked, InSubtree, Chain, ParentChain, Moved, PathUnder, DepthUnder, IsAncestorOrSelf;
    if id == root {
      RootChain(fs, root, parent);
    } else {
      SubtreeParent(fs, root, id);
      MovedParent(fs, root, parent, id);
      var p := fs[id].parent.value;
      ChainInside(fs, root, parent, p);
      ChainsGrowAlike(fs, Moved(fs, root, parent), ParentChain(fs, parent), fs[root].depth - 1, id, p);
    }
  }

  /** Ancestry after the move: the subtree's chains are cut at the moved folder and hung under its new parent;
      all other chains stay. */
  lemma MovedChain(fs: map<Id, Folder>, root: Id, parent: Option<Id>, id: Id)
    requires AllLinked(fs) && root in fs && MayMove(fs, root, parent) && id in fs
    ensures AllLinked(Moved(fs, root, parent))
    ensures Chain(Moved(fs, root, parent), id) ==
              if IsAncestorOrSelf(fs, root, id)
              then ParentChain(fs, parent) + Chain(fs, id)[fs[root].depth - 1..]
              else Chain(fs, id)
  {
    hide *;
    MoveKeepsLinks(fs, root, parent);
    PathPrefixIffAncestor(fs, root, id);
    if InSubtree(fs, root, id) {
      ChainInside(fs, root, parent, id);
    } else {
      ChainOutside(fs, root, parent, id);
    }
  }

  lemma ChainsGrowAlike(fs: map<Id, Folder>, m: map<Id, Folder>, top: seq<Id>, k: nat, id: Id, p: Id)
    requires AllLinked(fs) && AllLinked(m) && id in fs && id in m && fs[id].parent == m[id].parent == Some(p)
    requires p in fs && p in m && k <= |Chain(fs, p)| && Chain(m, p) == top + Chain(fs, p)[k..]
    ensures Chain(m, id) == top + Chain(fs, id)[k..]
  {
    hide *;
    ChainStep(fs, id, p);
    ChainStep(m, id, p);
    assert (Chain(fs, p) + [id])[k..] == Chain(fs, p)[k..] + [id];
  }

  lemma MovedParent(fs: map<Id, Folder>, root: Id, parent: Option<Id>, id: Id)
    requires AllLinked(fs) && root in fs && (parent.Some? ==> parent.value in fs) && id in fs && id != root
    requires InSubtree(fs, root, id)
    ensures id in Moved(fs, root, parent)
    ensures fs[id].parent.Some? && Moved(fs, root, parent)[id].parent == fs[id].parent
    ensures fs[id].parent.value in fs && fs[id].parent.value in Moved(fs, root, parent)
    ensures InSubtree(fs, root, fs[id].parent.value)
  {
    SubtreeParent(fs, root, id);
  }

  lemma RootChain(fs: map<Id, Folder>, root: Id, parent: Option<Id>)
    requires AllLinked(fs) && root in fs && MayMove(fs, root, parent) && AllLinked(Moved(fs, root, parent))
    ensures fs[root].depth >= 1 && root in Moved(fs, root, parent)
    ensures Chain(Moved(fs, root, parent), root) == ParentChain(fs, parent) + Chain(fs, root)[fs[root].depth - 1..]
  {
    if parent.Some? {
      PathPrefixIffAncestor(fs, root, parent.value);
      ChainOutside(fs, root, parent, parent.value);
    }
    assert Chain(fs, root)[fs[root].depth - 1..] == [root];
  }
}
