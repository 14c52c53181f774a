/** The path a person reads, "인사/복무": built per collection with a memo, and how far it identifies a folder. */
module FolderNames {
  import opened Basics
  import opened FolderTree
  import opened FolderService

  /** Names joined by "/", the way the path grows: parent's path, separator, own name. */
  function JoinedNames(names: seq<string>): string
    requires names != []
  {
    if |names| == 1 then names[0] else JoinedNames(names[..|names| - 1]) + "/" + names[|names| - 1]
  }

  function NamesAlong(fs: map<Id, Folder>, chain: seq<Id>): (names: seq<string>)
    requires forall id :: id in chain ==> id in fs
    ensures |names| == |chain| && forall k :: 0 <= k < |chain| ==> names[k] == fs[chain[k]].name
  {
    seq(|chain|, k requires 0 <= k < |chain| => assert chain[k] in chain; fs[chain[k]].name)
  }

  /** The names from the root folder down. */
  ghost function NamePath(fs: map<Id, Folder>, id: Id): (names: seq<string>)
    requires AllLinked(fs) && id in fs
    ensures names != []
  {
    NamesAlong(fs, Chain(fs, id))
  }

  ghost function Readable(fs: map<Id, Folder>, id: Id): string
    requires AllLinked(fs) && id in fs
  {
    JoinedNames(NamePath(fs, id))
  }

  /** A path shows names of its own collection only. */
  lemma {:induction false} NamesOfCollection(fs: map<Id, Folder>, id: Id)
    requires AllLinked(fs) && id in fs
    ensures forall n :: n in NamePath(fs, id) ==>
              exists k :: k in fs && fs[k].collection == fs[id].collection && fs[k].name == n
    decreases fs[id].depth
  {
    hide NamePath, AllLinked;
    NamePathStep(fs, id);
    if fs[id].parent.Some? {
      NamesOfCollection(fs, fs[id].parent.value);
      assert NamePath(fs, id) == NamePath(fs, fs[id].parent.value) + [fs[id].name];
    } else {
      assert NamePath(fs, id) == [fs[id].name];
    }
  }

  lemma NamePathStep(fs: map<Id, Folder>, id: Id)
    requires AllLinked(fs) && id in fs
    ensures var names := NamePath(fs, id);
            && names[|names| - 1] == fs[id].name
            && match fs[id].parent
               case None => |names| == 1
               case Some(p) =>
                 && p in fs && 0 <= fs[p].depth < fs[id].depth && fs[p].collection == fs[id].collection
                 && |names| > 1 && NamePath(fs, p) == names[..|names| - 1]
  {}

  lemma ReadableStep(fs: map<Id, Folder>, id: Id)
    requires AllLinked(fs) && id in fs
    ensures match fs[id].parent
            case None => Readable(fs, id) == fs[id].name
            case Some(p) =>
              && p in fs && 0 <= fs[p].depth < fs[id].depth
              && Readable(fs, id) == Readable(fs, p) + "/" + fs[id].name
  {
    hide NamePath, AllLinked;
    NamePathStep(fs, id);
  }

  /** A memo of finished paths. */
  ghost predicate Memo(fs: map<Id, Folder>, paths: map<Id, string>, collection: Id)
    requires AllLinked(fs)
  {
    forall id :: id in paths ==> id in fs && fs[id].collection == collection && paths[id] == Readable(fs, id)
  }

  method BuildPath(fs: map<Id, Folder>, rows: set<Id>, collection: Id, paths: map<Id, string>, id: Id)
    returns (more: map<Id, string>)
    requires AllLinked(fs) && rows == (set r | r in fs && fs[r].collection == collection) && id in rows
    requires Memo(fs, paths, collection)
    ensures Memo(fs, more, collection) && paths.Keys + {id} <= more.Keys
    decreases fs[id].depth
  {
    hide Readable, AllLinked;
    if id in paths {
      return paths;
    }
    ReadableStep(fs, id);
    ParentIsThere(fs, id);
    more := paths;
    if fs[id].parent.Some? && fs[id].parent.value in rows {
      more := BuildPath(fs, rows, collection, more, fs[id].parent.value);
      more := more[id := more[fs[id].parent.value] + "/" + fs[id].name];
    } else {
      more := more[id := fs[id].name];
    }
  }

  /** Every folder of the collection, and no other, gets the names on its ancestor chain. */
  method FolderPaths(fs: map<Id, Folder>, collection: Id) returns (paths: map<Id, string>)
    requires AllLinked(fs)
    ensures paths.Keys == set r | r in fs && fs[r].collection == collection
    ensures forall id :: id in paths ==> paths[id] == Readable(fs, id)
  {
    hide Readable, AllLinked;
    var rows := set r | r in fs && fs[r].collection == collection;
    paths := map[];
    var todo := rows;
    while todo != {}
      invariant todo <= rows && rows - todo <= paths.Keys && Memo(fs, paths, collection)
      decreases todo
    {
      var id: Id :| id in todo;
      paths := BuildPath(fs, rows, collection, paths, id);
      todo := todo - {id};
    }
  }

  // ---- when a readable path names one folder -----------------------------------------------

  /** Slash-free names can be read off their joined text. */
  lemma {:induction false} JoinedNamesInjective(a: seq<string>, b: seq<string>)
    requires a != [] && b != [] && JoinedNames(a) == JoinedNames(b)
    requires forall n :: n in a || n in b ==> '/' !in n
    ensures a == b
  {
    var s := JoinedNames(a);
    var x, y := a[|a| - 1], b[|b| - 1];
    assert x in a && y in b;
    SlashFreeTail(a);
    SlashFreeTail(b);
    assert |x| == |y|;
    assert x == s[|s| - |x|..] == y;
    if |a| <= 1 {
    } else {
      var p, q := a[..|a| - 1], b[..|b| - 1];
      assert JoinedNames(p) == s[..|s| - |x| - 1] == JoinedNames(q);
      JoinedNamesInjective(p, q);
      assert a == p + [x] && b == q + [y];
    }
  }

  /** The last slash sits right before the last name; a single name has none. */
  lemma SlashFreeTail(a: seq<string>)
    requires a != [] && forall n :: n in a ==> '/' !in n
    ensures var s, x := JoinedNames(a), a[|a| - 1];
            && |x| <= |s| && s[|s| - |x|..] == x && (forall k :: |s| - |x| <= k < |s| ==> s[k] != '/')
            && (|a| > 1 ==> |x| < |s| && s[|s| - |x| - 1] == '/' && s[..|s| - |x| - 1] == JoinedNames(a[..|a| - 1]))
            && (|a| == 1 ==> s == x)
  {
    var s, x := JoinedNames(a), a[|a| - 1];
    assert x in a;
    assert forall k :: |s| - |x| <= k < |s| ==> s[k] == x[k - (|s| - |x|)];
  }

  /** Sibling names being unique, the names along the chain identify a folder within its collection. */
  lemma {:induction false} NamesIdentify(fs: map<Id, Folder>, a: Id, b: Id)
    requires Tree(fs) && a in fs && b in fs && fs[a].collection == fs[b].collection
    requires NamePath(fs, a) == NamePath(fs, b)
    ensures a == b
    decreases fs[a].depth
  {
    hide NamePath, AllLinked;
    NamePathStep(fs, a);
    NamePathStep(fs, b);
    if fs[a].parent.Some? {
      NamesIdentify(fs, fs[a].parent.value, fs[b].parent.value);
    }
    assert Siblings(fs[a], fs[b]);
  }

  /** Two folders of a collection never show the same path, as long as none of its folder names holds the separator. */
  lemma ReadablePathsDistinct(fs: map<Id, Folder>, a: Id, b: Id)
    requires Tree(fs) && a in fs && b in fs && fs[a].collection == fs[b].collection
    requires forall id :: id in fs && fs[id].collection == fs[a].collection ==> '/' !in fs[id].name
    ensures Readable(fs, a) == Readable(fs, b) <==> a == b
  {
    hide NamePath, JoinedNames, AllLinked, SiblingNamesUnique;
    NamesOfCollection(fs, a);
    NamesOfCollection(fs, b);
    if Readable(fs, a) == Readable(fs, b) {
      JoinedNamesInjective(NamePath(fs, a), NamePath(fs, b));
      NamesIdentify(fs, a, b);
    }
  }

  /** No two folders of the collection show the same path. */
  ghost predicate PathsDistinct(fs: map<Id, Folder>, collection: Id)
    requires AllLinked(fs)
  {
    forall a, b :: a in fs && b in fs && fs[a].collection == fs[b].collection == collection && a != b ==>
      Readable(fs, a) != Readable(fs, b)
  }

  /** The path a folder of this name would show under this parent. */
  ghost function PathUnderParent(fs: map<Id, Folder>, parent: Option<Id>, name: string): string
    requires AllLinked(fs) && (parent.Some? ==> parent.value in fs)
  {
    if parent.Some? then Readable(fs, parent.value) + "/" + name else name
  }

  lemma ReadableStays(fs: map<Id, Folder>, after: map<Id, Folder>, k: Id)
    requires AllLinked(fs) && AllLinked(after) && k in fs && forall i :: i in fs ==> i in after && after[i] == fs[i]
    ensures Readable(after, k) == Readable(fs, k)
  {
    SameChain(fs, after, k);
    assert NamePath(after, k) == NamePath(fs, k);
  }

  /** Slashes or not: adding a folder keeps the collection's paths distinct if and only if none of its folders already
      shows the path the new one will show. (`after` is the table FolderStore.Create leaves behind.) */
  lemma CreateKeepsPathsDistinctIff(fs: map<Id, Folder>, after: map<Id, Folder>, id: Id)
    requires AllLinked(fs) && AllLinked(after) && id !in fs && id in after && after - {id} == fs
    requires PathsDistinct(fs, after[id].collection)
    ensures after[id].parent.Some? ==> after[id].parent.value in fs
    ensures PathsDistinct(after, after[id].collection) <==>
              forall k :: k in fs && fs[k].collection == after[id].collection ==>
                Readable(fs, k) != PathUnderParent(fs, after[id].parent, after[id].name)
  {
    hide AllLinked, Readable;
    ParentIsThere(after, id);
    ReadableStep(after, id);
    forall k | k in fs ensures k in after && after[k] == fs[k] && Readable(after, k) == Readable(fs, k) {
      assert k in after - {id};
      ReadableStays(fs, after, k);
    }
    assert forall k :: k in after && k != id ==> k in fs;
  }

  /** After one row was edited, every path below it starts with the row's new path instead of its old one; all other
      paths stay. */
  lemma {:induction false} EditShiftsPaths(fs: map<Id, Folder>, work: map<Id, Folder>, id: Id, k: Id)
    requires AllLinked(fs) && AllLinked(work) && OneRowEdited(fs, work, id) && k in fs
    ensures id in work && k in work
    ensures if InSubtree(fs, id, k)
            then Readable(fs, id) <= Readable(fs, k)
                 && Readable(work, k) == Readable(work, id) + Readable(fs, k)[|Readable(fs, id)|..]
            else Readable(work, k) == Readable(fs, k)
    decreases fs[k].depth
  {
    hide AllLinked, Readable, InSubtree;
    ReadableStep(fs, k);
    ReadableStep(work, k);
    SelfInSubtree(fs, id);
    if k == id {
      assert Readable(fs, id)[|Readable(fs, id)|..] == "";
    } else {
      SubtreeParent(fs, id, k);
      if fs[k].parent.Some? {
        var p := fs[k].parent.value;
        EditShiftsPaths(fs, work, id, p);
        PathGrows(Readable(fs, id), Readable(fs, p), Readable(work, id), "/" + fs[k].name);
        assert Readable(fs, p) + "/" + fs[k].name == Readable(fs, p) + ("/" + fs[k].name);
        assert Readable(work, p) + "/" + fs[k].name == Readable(work, p) + ("/" + fs[k].name);
      }
    }
  }

  lemma PathGrows(top: string, path: string, newTop: string, more: string)
    ensures top <= path ==> top <= path + more && newTop + path[|top|..] + more == newTop + (path + more)[|top|..]
  {}

  /** The path k would show once the folder above it shows newTop. */
  ghost function Retopped(fs: map<Id, Folder>, id: Id, k: Id, newTop: string): string
    requires AllLinked(fs) && id in fs && k in fs
  {
    if |Readable(fs, id)| <= |Readable(fs, k)| then newTop + Readable(fs, k)[|Readable(fs, id)|..] else ""
  }

  /** The same for an accepted rename or move: paths stay distinct if and only if no folder of the collection outside
      the subtree already shows a path that one inside it will show. */
  lemma PatchKeepsPathsDistinctIff(fs: map<Id, Folder>, id: Id, name: Option<string>, parent: Option<Id>, toRoot: bool)
    requires Tree(fs) && Acceptable(fs, id, name, parent, toRoot) && PathsDistinct(fs, fs[id].collection)
    ensures var dest := Destination(fs, id, parent, toRoot);
            && (!toRoot && parent.Some? ==> parent.value in fs) && (dest.Some? ==> dest.value in fs)
            && AllLinked(Patched(fs, id, name, parent, toRoot))
            && (PathsDistinct(Patched(fs, id, name, parent, toRoot), fs[id].collection) <==>
                forall k, o :: k in fs && o in fs && fs[o].collection == fs[id].collection
                               && InSubtree(fs, id, k) && !InSubtree(fs, id, o) ==>
                  Readable(fs, o) != Retopped(fs, id, k, PathUnderParent(fs, dest, Renamed(fs, id, name)[id].name)))
  {
    DestinationOutside(fs, id, name, parent, toRoot);
    PatchKeepsTree(fs, id, name, parent, toRoot);
    PatchEditsOneRow(fs, id, name, parent, toRoot);
    var work := Patched(fs, id, name, parent, toRoot);
    EditKeepsDistinctIff(fs, work, id);
  }

  lemma DestinationOutside(fs: map<Id, Folder>, id: Id, name: Option<string>, parent: Option<Id>, toRoot: bool)
    requires AllLinked(fs) && id in fs && LegalMove(fs, id, name, parent, toRoot)
    ensures var dest := Destination(fs, id, parent, toRoot);
            && (!toRoot && parent.Some? ==> parent.value in fs)
            && (dest.Some? ==> dest.value in fs && !InSubtree(fs, id, dest.value))
  {
    var dest := Destination(fs, id, parent, toRoot);
    var renamed := Renamed(fs, id, name);
    hide Linked, AllLinked, Chain, IsAncestorOrSelf;
    RenameKeepsLinks(fs, id, name);
    ParentIsThere(fs, id);
    if dest.Some? {
      if parent.Some? {
        PathPrefixIffAncestor(renamed, id, dest.value);
      } else {
        ParentsAcyclic(fs, id);
        PathPrefixIffAncestor(fs, id, dest.value);
      }
    }
  }

  lemma EditKeepsDistinctIff(fs: map<Id, Folder>, work: map<Id, Folder>, id: Id)
    requires AllLinked(fs) && AllLinked(work) && OneRowEdited(fs, work, id) && PathsDistinct(fs, fs[id].collection)
    requires work[id].parent.Some? ==> work[id].parent.value in fs && !InSubtree(fs, id, work[id].parent.value)
    ensures PathsDistinct(work, fs[id].collection) <==>
            forall k, o :: k in fs && o in fs && fs[o].collection == fs[id].collection
                           && InSubtree(fs, id, k) && !InSubtree(fs, id, o) ==>
              Readable(fs, o) != Retopped(fs, id, k, PathUnderParent(fs, work[id].parent, work[id].name))
  {
    hide AllLinked, Readable, InSubtree, Retopped, PathUnderParent;
    var newTop := PathUnderParent(fs, work[id].parent, work[id].name);
    forall k | k in fs
      ensures k in work
      ensures Readable(work, k) == if InSubtree(fs, id, k) then Retopped(fs, id, k, newTop) else Readable(fs, k)
      ensures InSubtree(fs, id, k) ==> fs[k].collection == fs[id].collection
    {
      EditedPath(fs, work, id, k);
      SubtreeCollection(fs, id, k);
    }
    forall a, b | a in fs && b in fs && InSubtree(fs, id, a) && InSubtree(fs, id, b) &&
      Readable(work, a) == Readable(work, b)
      ensures Readable(fs, a) == Readable(fs, b)
    {
      EditShiftsPaths(fs, work, id, a);
      EditShiftsPaths(fs, work, id, b);
      SameBehindTop(Readable(fs, id), Readable(fs, a), Readable(fs, b), Readable(work, id));
    }
  }

  lemma SameBehindTop(top: string, a: string, b: string, newTop: string)
    requires top <= a && top <= b && newTop + a[|top|..] == newTop + b[|top|..]
    ensures a == b
  {
    var x, y := newTop + a[|top|..], newTop + b[|top|..];
    assert a[|top|..] == x[|newTop|..] == y[|newTop|..] == b[|top|..];
    assert a == top + a[|top|..] && b == top + b[|top|..];
  }

  lemma EditedPath(fs: map<Id, Folder>, work: map<Id, Folder>, id: Id, k: Id)
    requires AllLinked(fs) && AllLinked(work) && OneRowEdited(fs, work, id) && k in fs
    requires work[id].parent.Some? ==> work[id].parent.value in fs && !InSubtree(fs, id, work[id].parent.value)
    ensures k in work
    ensures Readable(work, k) ==
              if InSubtree(fs, id, k) then Retopped(fs, id, k, PathUnderParent(fs, work[id].parent, work[id].name))
              else Readable(fs, k)
  {
    hide AllLinked, Readable, InSubtree;
    ReadableStep(work, id);
    EditShiftsPaths(fs, work, id, k);
    if work[id].parent.Some? {
      EditShiftsPaths(fs, work, id, work[id].parent.value);
    }
  }

  lemma {:induction false} SubtreeCollection(fs: map<Id, Folder>, id: Id, k: Id)
    requires AllLinked(fs) && id in fs && k in fs
    ensures InSubtree(fs, id, k) ==> fs[k].collection == fs[id].collection
    decreases fs[k].depth
  {
    hide AllLinked, InSubtree;
    if k == id {
    } else {
      SubtreeParent(fs, id, k);
      if fs[k].parent.Some? {
        ReadableStep(fs, k);
        ParentIsThere(fs, k);
        SubtreeCollection(fs, id, fs[k].parent.value);
      }
    }
  }

  lemma SplitNameCollides(fs: map<Id, Folder>, a: Id, x: Id, y: Id)
    requires AllLinked(fs) && a in fs && x in fs && y in fs
    requires fs[a].parent == None && fs[x].parent == None && fs[y].parent == Some(x)
    requires fs[a].name == fs[x].name + "/" + fs[y].name
    ensures Readable(fs, a) == Readable(fs, y)
  {
    hide Readable, AllLinked;
    ReadableStep(fs, a);
    ReadableStep(fs, x);
    ReadableStep(fs, y);
  }

  /** The folder "x/y" beside a folder "x" with a child "y". */
  function Colliding(a: Id, x: Id, y: Id): map<Id, Folder> {
    map[a := Folder("c", None, "x/y", "/" + a + "/", 1),
        x := Folder("c", None, "x", "/" + x + "/", 1),
        y := Folder("c", Some(x), "y", "/" + x + "/" + y + "/", 2)]
  }

  lemma CollidingIsTree(a: Id, x: Id, y: Id)
    requires a != x && a != y && x != y
    ensures Tree(Colliding(a, x, y)) && AllLinked(Colliding(a, x, y))
  {
    var fs := Colliding(a, x, y);
    assert Linked(fs, a) && Linked(fs, x) && Linked(fs, y);
    assert AllLinked(fs);
    hide Linked, AllLinked;
    assert fs[a].name[1] == '/' && |fs[x].name| == 1;
  }

  /** A name may hold the separator, and then two folders of a collection can show the same path. */
  lemma SlashInNameCollides()
    ensures exists fs: map<Id, Folder>, a: Id, b: Id ::
              Tree(fs) && a in fs && b in fs && a != b && fs[a].collection == fs[b].collection &&
                Readable(fs, a) == Readable(fs, b)
  {
    hide Tree, AllLinked, Readable;
    var a: Id, x: Id, y: Id := "1", "2", "3";
    assert a[0] != x[0] && a[0] != y[0] && x[0] != y[0];
    CollidingIsTree(a, x, y);
    SplitNameCollides(Colliding(a, x, y), a, x, y);
  }

}
