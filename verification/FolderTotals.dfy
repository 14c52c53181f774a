/** Subtree totals: rows grouped per folder are folded up each folder's parent chain. */
module FolderTotals {
  import opened Basics
  import opened FolderTree
  import opened FolderService

  datatype Total = Total(count: nat, size: nat, updated: Option<int>)

  const ZERO := Total(0, 0, None)

  function Later(a: Option<int>, b: Option<int>): Option<int> {
    if a.None? then b else if b.None? then a else if b.value > a.value then b else a
  }

  function Plus(a: Total, b: Total): Total {
    Total(a.count + b.count, a.size + b.size, Later(a.updated, b.updated))
  }

  /** One row of the grouped query: a folder with what its own current documents add up to. */
  datatype Row = Row(folder: Id, total: Total)

  // ---- what the numbers should mean -------------------------------------------------

  function Share(d: Document, within: set<Id>): Total {
    if d.current && d.folder.Some? && d.folder.value in within then Total(1, d.size, Some(d.updated)) else ZERO
  }

  /** Count, size and latest change of the current documents whose folder lies in `within`. */
  function TotalIn(docs: seq<Document>, within: set<Id>): Total {
    if docs == [] then ZERO
    else Plus(TotalIn(docs[..|docs| - 1], within), Share(docs[|docs| - 1], within))
  }

  /** Which of the documents are current and filed in `within`. */
  function FiledAt(docs: seq<Document>, within: set<Id>): set<nat> {
    set i: nat | i < |docs| && docs[i].current && docs[i].folder.Some? && docs[i].folder.value in within
  }

  function FiledSizes(docs: seq<Document>, within: set<Id>): (sizes: seq<nat>)
    ensures |sizes| == |docs|
  {
    seq(|docs|, i requires 0 <= i < |docs| => if i in FiledAt(docs, within) then docs[i].size else 0)
  }

  function FiledDates(docs: seq<Document>, within: set<Id>): (dates: seq<Option<int>>)
    ensures |dates| == |docs|
  {
    seq(|docs|, i requires 0 <= i < |docs| => if i in FiledAt(docs, within) then Some(docs[i].updated) else None)
  }

  /** None exactly where there are no dates, and otherwise the latest of them. */
  ghost predicate Latest(updated: Option<int>, dates: seq<Option<int>>) {
    match updated
    case None => forall i :: 0 <= i < |dates| ==> dates[i].None?
    case Some(last) =>
      && (exists i :: 0 <= i < |dates| && dates[i] == Some(last))
      && forall i :: 0 <= i < |dates| && dates[i].Some? ==> dates[i].value <= last
  }

  lemma LaterIsLatest(a: Option<int>, dates: seq<Option<int>>, b: Option<int>)
    requires Latest(a, dates)
    ensures Latest(Later(a, b), dates + [b])
  {
    var all := dates + [b];
    assert all[|dates|] == b && forall i :: 0 <= i < |dates| ==> all[i] == dates[i];
    if a.Some? {
      var i :| 0 <= i < |dates| && dates[i] == a;
      assert all[i] == a;
    }
  }

  /** The count is the number of these documents, the size the sum of their sizes, the change the latest of theirs. */
  lemma {:induction false} TotalMeans(docs: seq<Document>, within: set<Id>)
    ensures TotalIn(docs, within).count == |FiledAt(docs, within)|
    ensures TotalIn(docs, within).size == Sum(FiledSizes(docs, within))
    ensures Latest(TotalIn(docs, within).updated, FiledDates(docs, within))
  {
    if docs == [] {
    } else {
      var init, last := docs[..|docs| - 1], docs[|docs| - 1];
      TotalMeans(init, within);
      OneMoreFiled(docs, within);
      var share := Share(last, within);
      LaterIsLatest(TotalIn(init, within).updated, FiledDates(init, within), share.updated);
      var sizes := FiledSizes(docs, within);
      assert sizes == FiledSizes(init, within) + [share.size];
      assert sizes[..|docs| - 1] == FiledSizes(init, within);
      hide Latest, FiledAt, FiledSizes, FiledDates, Share;
    }
  }

  lemma OneMoreFiled(docs: seq<Document>, within: set<Id>)
    requires docs != []
    ensures var init, share := docs[..|docs| - 1], Share(docs[|docs| - 1], within);
            && |FiledAt(docs, within)| == |FiledAt(init, within)| + share.count
            && FiledSizes(docs, within) == FiledSizes(init, within) + [share.size]
            && FiledDates(docs, within) == FiledDates(init, within) + [share.updated]
  {
    var init, n, share := docs[..|docs| - 1], |docs| - 1, Share(docs[|docs| - 1], within);
    SameFiled(docs, within);
    hide FiledAt, Share;
    assert FiledAt(docs, within) == FiledAt(init, within) + if share.count == 1 then {n} else {};
    assert forall i :: 0 <= i < n ==> init[i] == docs[i];
    assert FiledSizes(docs, within) == FiledSizes(init, within) + [share.size];
    assert FiledDates(docs, within) == FiledDates(init, within) + [share.updated];
  }

  lemma SameFiled(docs: seq<Document>, within: set<Id>)
    requires docs != []
    ensures var n, share := |docs| - 1, Share(docs[|docs| - 1], within);
            && (forall i :: i in FiledAt(docs, within) <==>
                  i in FiledAt(docs[..n], within) || (i == n && share.count == 1))
            && n !in FiledAt(docs[..n], within)
            && share == if share.count == 1 then Total(1, docs[n].size, Some(docs[n].updated)) else ZERO
  {}

  ghost function Subtree(fs: map<Id, Folder>, root: Id): set<Id>
    requires AllLinked(fs) && root in fs
  {
    set id | id in fs && IsAncestorOrSelf(fs, root, id)
  }

  /** GROUP BY folder over the current documents of the listed folders: a row per folder that has any. */
  ghost predicate GroupsByFolder(rows: seq<Row>, docs: seq<Document>, folders: set<Id>) {
    && (forall i, j :: 0 <= i < j < |rows| ==> rows[i].folder != rows[j].folder)
    && (forall r :: r in rows ==> r.folder in folders && r.total == TotalIn(docs, {r.folder}))
    && (forall d :: d in docs && d.current && d.folder.Some? && d.folder.value in folders ==>
          exists r :: r in rows && r.folder == d.folder.value)
  }

  // ---- what the fold computes ---------------------------------------------------------

  /** The sum of the rows whose folder lies in `within`. */
  function SumRows(rows: seq<Row>, within: set<Id>): Total {
    if rows == [] then ZERO
    else Plus(SumRows(rows[..|rows| - 1], within),
              if rows[|rows| - 1].folder in within then rows[|rows| - 1].total else ZERO)
  }

  function NumberIn(row: Row, within: set<Id>, number: Total -> nat): nat {
    if row.folder in within then number(row.total) else 0
  }

  function RowNumbers(rows: seq<Row>, within: set<Id>, number: Total -> nat): (ns: seq<nat>)
    ensures |ns| == |rows|
  {
    seq(|rows|, i requires 0 <= i < |rows| => NumberIn(rows[i], within, number))
  }

  function RowDates(rows: seq<Row>, within: set<Id>): (dates: seq<Option<int>>)
    ensures |dates| == |rows|
  {
    seq(|rows|, i requires 0 <= i < |rows| => if rows[i].folder in within then rows[i].total.updated else None)
  }

  /** What a sum of rows says: counts and sizes are added up, and the latest change stands. */
  ghost predicate AddsUp(rows: seq<Row>, within: set<Id>, total: Total) {
    && total.count == Sum(RowNumbers(rows, within, (t: Total) => t.count))
    && total.size == Sum(RowNumbers(rows, within, (t: Total) => t.size))
    && Latest(total.updated, RowDates(rows, within))
  }

  lemma {:induction false} SumRowsAddsUp(rows: seq<Row>, within: set<Id>)
    ensures AddsUp(rows, within, SumRows(rows, within))
  {
    if rows == [] {
    } else {
      var init, last := rows[..|rows| - 1], rows[|rows| - 1];
      SumRowsAddsUp(init, within);
      NumbersGrow(rows, within, (t: Total) => t.count);
      NumbersGrow(rows, within, (t: Total) => t.size);
      var extra := if last.folder in within then last.total else ZERO;
      assert RowDates(rows, within) == RowDates(init, within) + [extra.updated];
      LaterIsLatest(SumRows(init, within).updated, RowDates(init, within), extra.updated);
    }
  }

  lemma NumbersGrow(rows: seq<Row>, within: set<Id>, number: Total -> nat)
    requires rows != []
    ensures Sum(RowNumbers(rows, within, number)) ==
            Sum(RowNumbers(rows[..|rows| - 1], within, number)) +
            if rows[|rows| - 1].folder in within then number(rows[|rows| - 1].total) else 0
  {
    assert RowNumbers(rows, within, number)[..|rows| - 1] == RowNumbers(rows[..|rows| - 1], within, number);
  }

  lemma SumRowsAppend(rows: seq<Row>, i: nat, within: set<Id>)
    requires i < |rows|
    ensures SumRows(rows[..i + 1], within) ==
            Plus(SumRows(rows[..i], within), if rows[i].folder in within then rows[i].total else ZERO)
  {
    assert rows[..i + 1][..i] == rows[..i];
  }

  /** Walks up from each row's folder, adding the row to every folder on the way, until the chain leaves the list. */
  method SubtreeTotals(fs: map<Id, Folder>, rows: seq<Row>) returns (totals: map<Id, Total>)
    requires AllLinked(fs) && forall r :: r in rows ==> r.folder in fs
    ensures totals.Keys == fs.Keys
    ensures forall f :: f in fs ==> totals[f] == SumRows(rows, Subtree(fs, f))
    ensures forall f :: f in fs ==> AddsUp(rows, Subtree(fs, f), totals[f])
  {
    hide AddsUp, Chain, Plus, AllLinked, Subtree;
    totals := map f | f in fs :: ZERO;
    for i := 0 to |rows|
      invariant totals.Keys == fs.Keys
      invariant forall f :: f in fs ==> totals[f] == SumRows(rows[..i], Subtree(fs, f))
    {
      var row := rows[i];
      ghost var before := totals;
      ghost var chain := Chain(fs, row.folder);
      RootIffDepthOne(fs, row.folder);
      ghost var k := |chain|;
      var cur := Some(row.folder);
      while cur.Some? && cur.value in fs
        invariant 0 <= k <= |chain| == fs[row.folder].depth
        invariant if k == 0 then cur.None? else cur == Some(chain[k - 1])
        invariant AddedTo(fs, before, totals, chain[k..], row.total)
        decreases k
      {
        ClimbOnce(fs, row.folder, k - 1);
        AddOne(fs, before, totals, chain, k - 1, row.total);
        totals := totals[cur.value := Plus(totals[cur.value], row.total)];
        cur := fs[cur.value].parent;
        k := k - 1;
      }
      assert chain[0..] == chain;
      RowAdded(fs, rows, i, before, totals);
    }
    assert rows[..|rows|] == rows;
    forall f | f in fs ensures AddsUp(rows, Subtree(fs, f), totals[f]) {
      SumRowsAddsUp(rows, Subtree(fs, f));
    }
  }

  /** `extra` was added to exactly the listed folders. */
  ghost predicate AddedTo(fs: map<Id, Folder>, before: map<Id, Total>, after: map<Id, Total>, to: seq<Id>,
                          extra: Total) {
    && before.Keys == after.Keys == fs.Keys
    && forall f :: f in fs ==> after[f] == if f in to then Plus(before[f], extra) else before[f]
  }

  lemma AddOne(fs: map<Id, Folder>, before: map<Id, Total>, after: map<Id, Total>, chain: seq<Id>, k: nat, extra: Total)
    requires k < |chain| && chain[k] in fs && chain[k] !in chain[k + 1..]
    requires AddedTo(fs, before, after, chain[k + 1..], extra)
    ensures AddedTo(fs, before, after[chain[k] := Plus(after[chain[k]], extra)], chain[k..], extra)
  {}

  lemma RowAdded(fs: map<Id, Folder>, rows: seq<Row>, i: nat, before: map<Id, Total>, after: map<Id, Total>)
    requires AllLinked(fs) && i < |rows| && rows[i].folder in fs
    requires AddedTo(fs, before, after, Chain(fs, rows[i].folder), rows[i].total)
    requires forall f :: f in fs ==> before[f] == SumRows(rows[..i], Subtree(fs, f))
    ensures forall f :: f in fs ==> after[f] == SumRows(rows[..i + 1], Subtree(fs, f))
  {
    hide Plus, Chain;
    forall f | f in fs ensures after[f] == SumRows(rows[..i + 1], Subtree(fs, f)) {
      SumRowsAppend(rows, i, Subtree(fs, f));
      PlusFacts(before[f], ZERO, ZERO, ZERO);
      assert rows[i].folder in Subtree(fs, f) <==> f in Chain(fs, rows[i].folder);
    }
  }

  lemma RootIffDepthOne(fs: map<Id, Folder>, id: Id)
    requires AllLinked(fs) && id in fs
    ensures fs[id].depth >= 1 && (fs[id].parent.None? <==> fs[id].depth == 1)
    ensures fs[id].parent.Some? ==> fs[id].parent.value in fs && fs[fs[id].parent.value].depth == fs[id].depth - 1 >= 1
  {}

  lemma ClimbOnce(fs: map<Id, Folder>, id: Id, k: nat)
    requires AllLinked(fs) && id in fs && k < fs[id].depth
    ensures var c := Chain(fs, id);
            && c[k] in fs && c[k] !in c[k + 1..]
            && fs[c[k]].parent == if k == 0 then None else Some(c[k - 1])
  {
    hide AllLinked, Chain, PathOf;
    var c := Chain(fs, id);
    ParentsAcyclic(fs, id);
    ChainPrefix(fs, id, k);
    RootIffDepthOne(fs, c[k]);
    if fs[c[k]].parent.Some? {
      ChainStep(fs, c[k], fs[c[k]].parent.value);
    }
  }

  // ---- the two agree ----------------------------------------------------------------------

  lemma PlusFacts(a: Total, b: Total, c: Total, d: Total)
    ensures Plus(Plus(a, b), Plus(c, d)) == Plus(Plus(a, c), Plus(b, d))
    ensures Plus(a, ZERO) == a == Plus(ZERO, a)
  {}

  lemma {:induction false} TotalInSplits(docs: seq<Document>, a: set<Id>, b: set<Id>, both: set<Id>)
    requires a !! b && both == a + b
    ensures TotalIn(docs, both) == Plus(TotalIn(docs, a), TotalIn(docs, b))
  {
    hide Plus;
    if docs != [] {
      var init, last := docs[..|docs| - 1], docs[|docs| - 1];
      TotalInSplits(init, a, b, both);
      PlusFacts(TotalIn(init, a), TotalIn(init, b), Share(last, a), Share(last, b));
      PlusFacts(Share(last, both), ZERO, ZERO, ZERO);
    } else {
      PlusFacts(ZERO, ZERO, ZERO, ZERO);
    }
  }

  lemma {:induction false} TotalInSame(docs: seq<Document>, a: set<Id>, b: set<Id>)
    requires forall d :: d in docs && d.current && d.folder.Some? ==> (d.folder.value in a <==> d.folder.value in b)
    ensures TotalIn(docs, a) == TotalIn(docs, b)
  {
    hide Plus;
    if docs == [] {
    } else {
      assert docs[|docs| - 1] in docs;
      TotalInSame(docs[..|docs| - 1], a, b);
    }
  }

  function Named(rows: seq<Row>, within: set<Id>): set<Id> {
    set r | r in rows && r.folder in within :: r.folder
  }

  lemma {:induction false} GroupsAddUp(rows: seq<Row>, docs: seq<Document>, within: set<Id>)
    requires forall i, j :: 0 <= i < j < |rows| ==> rows[i].folder != rows[j].folder
    requires forall r :: r in rows ==> r.total == TotalIn(docs, {r.folder})
    ensures SumRows(rows, within) == TotalIn(docs, Named(rows, within))
  {
    hide Plus, TotalIn;
    if rows == [] {
      NothingIn(docs, Named(rows, within));
    } else {
      var init, last := rows[..|rows| - 1], rows[|rows| - 1];
      GroupsAddUp(init, docs, within);
      NamedAppend(rows, within);
      assert init + [last] == rows;
      PlusFacts(SumRows(init, within), ZERO, ZERO, ZERO);
      if last.folder in within {
        TotalInSplits(docs, Named(init, within), {last.folder}, Named(rows, within));
      } else {
        assert Named(rows, within) == Named(init, within);
      }
    }
  }

  lemma NamedAppend(rows: seq<Row>, within: set<Id>)
    requires rows != [] && forall i, j :: 0 <= i < j < |rows| ==> rows[i].folder != rows[j].folder
    ensures var init, last := rows[..|rows| - 1], rows[|rows| - 1];
            && last.folder !in Named(init, within)
            && Named(rows, within) == Named(init, within) + if last.folder in within then {last.folder} else {}
  {}

  lemma {:induction false} NothingIn(docs: seq<Document>, nothing: set<Id>)
    requires nothing == {}
    ensures TotalIn(docs, nothing) == ZERO
  {
    hide Plus;
    if docs == [] {
    } else {
      NothingIn(docs[..|docs| - 1], nothing);
      PlusFacts(ZERO, ZERO, ZERO, ZERO);
    }
  }

  /** Each folder's shown totals are the sums over the current documents filed anywhere under its path. */
  lemma TotalsMeanSubtree(fs: map<Id, Folder>, rows: seq<Row>, docs: seq<Document>, root: Id)
    requires AllLinked(fs) && root in fs && GroupsByFolder(rows, docs, fs.Keys)
    ensures var total, filed := SumRows(rows, Subtree(fs, root)), FiledAt(docs, Subtree(fs, root));
            && total.count == |filed|
            && total.size == Sum(FiledSizes(docs, Subtree(fs, root)))
            && Latest(total.updated, FiledDates(docs, Subtree(fs, root)))
    ensures SumRows(rows, Subtree(fs, root)) == TotalIn(docs, Subtree(fs, root))
    ensures Subtree(fs, root) == set id | id in fs && fs[root].path <= fs[id].path
  {
    hide TotalIn, SumRows, Chain, AllLinked, GroupsByFolder;
    var subtree := Subtree(fs, root);
    SubtreeByPath(fs, root);
    GroupedShare(rows, docs, fs.Keys, subtree);
    TotalMeans(docs, subtree);
  }

  lemma SubtreeByPath(fs: map<Id, Folder>, root: Id)
    requires AllLinked(fs) && root in fs
    ensures Subtree(fs, root) == set id | id in fs && fs[root].path <= fs[id].path
  {
    AncestorsByPath(fs, root);
  }

  /** Documents outside the grouped folders contribute nothing. */
  lemma GroupedShare(rows: seq<Row>, docs: seq<Document>, folders: set<Id>, within: set<Id>)
    requires GroupsByFolder(rows, docs, folders) && within <= folders
    ensures SumRows(rows, within) == TotalIn(docs, within)
  {
    hide TotalIn, SumRows;
    GroupsAddUp(rows, docs, within);
    forall d | d in docs && d.current && d.folder.Some?
      ensures d.folder.value in Named(rows, within) <==> d.folder.value in within
    {
      if d.folder.value in within {
        var r :| r in rows && r.folder == d.folder.value;
      }
    }
    TotalInSame(docs, Named(rows, within), within);
  }

  // ---- the folder scope of a search ----------------------------------------------------------

  /** Documents of the named folders and everything under them; unknown folders are ignored. */
  function DocumentsInFolders(fs: map<Id, Folder>, docs: map<Id, Document>, ids: set<Id>): set<Id> {
    set d | d in docs && docs[d].folder.Some? && docs[d].folder.value in fs &&
            exists f :: f in ids && f in fs && fs[f].path <= fs[docs[d].folder.value].path
  }

  lemma FolderScopeMeansDescendants(fs: map<Id, Folder>, docs: map<Id, Document>, ids: set<Id>, d: Id)
    requires AllLinked(fs)
    ensures d in DocumentsInFolders(fs, docs, ids) <==>
              && d in docs && docs[d].folder.Some? && docs[d].folder.value in fs
              && exists f :: f in ids && f in Chain(fs, docs[d].folder.value)
  {
    if d in docs && docs[d].folder.Some? && docs[d].folder.value in fs {
      var folder := docs[d].folder.value;
      forall f | f in ids && f in fs ensures fs[f].path <= fs[folder].path <==> f in Chain(fs, folder) {
        PathPrefixIffAncestor(fs, f, folder);
      }
    }
  }
}
