/** The graph editor's rules: which edge closes a cycle, which nodes certainly run before a node,
    and the edits, which must keep the graph well formed. */
module WorkflowGraph {
  import opened Basics

  datatype NodeKind = Input | Tool | Branch | Answer | Llm | Classify | Extract | Template
  /** `payload` stands for the label and the kind's own configuration, which no rule here reads. */
  datatype Node = Node(id: string, kind: NodeKind, x: real, y: real, payload: string)
  datatype Edge = Edge(from: string, to: string, when: Option<string>)
  datatype Graph = Graph(nodes: seq<Node>, edges: seq<Edge>)

  function NodeIds(g: Graph): set<string> {
    set n | n in g.nodes :: n.id
  }

  /** Every name a walk over the edges can meet, declared as a node or not. */
  function Names(g: Graph): set<string> {
    NodeIds(g) + (set e | e in g.edges :: e.from) + (set e | e in g.edges :: e.to)
  }

  ghost predicate WellFormed(g: Graph) {
    && (forall i, j :: 0 <= i < j < |g.nodes| ==> g.nodes[i].id != g.nodes[j].id)
    && (forall e :: e in g.edges ==> e.from in NodeIds(g) && e.to in NodeIds(g))
  }

  // ---- walks ----------------------------------------------------------------

  ghost predicate HasEdge(g: Graph, a: string, b: string) {
    exists e :: e in g.edges && e.from == a && e.to == b
  }

  ghost predicate IsWalk(g: Graph, p: seq<string>) {
    |p| > 0 && forall i :: 0 <= i < |p| - 1 ==> HasEdge(g, p[i], p[i + 1])
  }

  ghost predicate WalkBetween(g: Graph, p: seq<string>, a: string, b: string) {
    IsWalk(g, p) && p[0] == a && p[|p| - 1] == b
  }

  /** A path of at least one edge. */
  ghost predicate Reaches(g: Graph, a: string, b: string) {
    exists p :: |p| >= 2 && WalkBetween(g, p, a, b)
  }

  ghost predicate Acyclic(g: Graph) {
    forall v :: !Reaches(g, v, v)
  }

  /** The edge's target leads back to its source, so the edge lies on a real cycle. */
  ghost predicate LiesOnCycle(g: Graph, index: nat) {
    index < |g.edges| && exists p :: WalkBetween(g, p, g.edges[index].to, g.edges[index].from)
  }

  /** Some cycle can be reached from a declared node. */
  ghost predicate CycleInReach(g: Graph) {
    exists start, v :: start in NodeIds(g) && (start == v || Reaches(g, start, v)) && Reaches(g, v, v)
  }

  ghost predicate IsTopologicalOrder(g: Graph, order: seq<string>) {
    && NoDuplicates(order)
    && Elements(order) == NodeIds(g)
    && forall e :: e in g.edges ==>
         e.from in order && e.to in order && Position(order, e.from) < Position(order, e.to)
  }

  /** Every edge out of order[i] goes to something listed before it. */
  ghost predicate Ranked(g: Graph, order: seq<string>) {
    forall i, e :: 0 <= i < |order| && e in g.edges && e.from == order[i] ==> e.to in order[..i]
  }

  lemma {:induction false} RankedWalkDescends(g: Graph, order: seq<string>, p: seq<string>, i: nat) returns (j: nat)
    requires Ranked(g, order) && IsWalk(g, p) && i < |order| && order[i] == p[0]
    ensures j < |order| && order[j] == p[|p| - 1] && j + |p| - 1 <= i
  {
    if |p| == 1 {
      j := i;
    } else {
      assert HasEdge(g, p[0], p[1]);
      var k :| 0 <= k < i && order[k] == p[1];
      j := RankedWalkDescends(g, order, p[1..], k);
    }
  }

  lemma {:induction false} TopologicalWalkAscends(g: Graph, order: seq<string>, p: seq<string>)
    requires IsTopologicalOrder(g, order) && IsWalk(g, p) && |p| >= 2
    ensures p[0] in order && p[|p| - 1] in order
    ensures Position(order, p[0]) < Position(order, p[|p| - 1])
  {
    assert HasEdge(g, p[0], p[1]);
    if |p| > 2 {
      TopologicalWalkAscends(g, order, p[1..]);
    }
  }

  lemma TopologicalOrderMeansAcyclic(g: Graph, order: seq<string>)
    requires IsTopologicalOrder(g, order)
    ensures Acyclic(g)
  {
    forall v | Reaches(g, v, v) ensures false {
      var p :| |p| >= 2 && WalkBetween(g, p, v, v);
      TopologicalWalkAscends(g, order, p);
    }
  }

  // ---- which edge closes a cycle ----------------------------------------------

  datatype Mark = Open | Done

  /** The depth-first walk's shared state. The ghost fields record the call stack and the finishing order. */
  class CycleFinder {
    const graph: Graph
    var state: map<string, Mark>
    var found: Option<nat>
    ghost var stack: seq<string>
    ghost var finished: seq<string>

    constructor (g: Graph)
      ensures graph == g && state == map[] && found == None && stack == [] && finished == [] && Valid()
    {
      graph, state, found, stack, finished := g, map[], None, [], [];
    }

    ghost predicate Valid()
      reads this
    {
      Coherent(graph, state, found, stack, finished)
    }

    method Walk(id: string)
      requires Valid()
      requires id !in state && MayVisit(graph, stack, id)
      modifies this
      ensures Valid() && stack == old(stack)
      ensures old(finished) <= finished && old(state).Keys <= state.Keys
      ensures found.None? ==> id in finished
      ensures old(found).Some? ==> found == old(found)
      decreases |Names(graph) - state.Keys|
    {
      hide Coherent, MayVisit, TargetsFinished, Names, HasEdge;
      if found.Some? {
        return;
      }
      ghost var before := stack;
      EnterNode(graph, state, stack, finished, id);
      state := state[id := Open];
      stack := stack + [id];
      for index := 0 to |graph.edges|
        invariant Valid() && stack == before + [id]
        invariant old(finished) <= finished
        invariant old(state).Keys + {id} <= state.Keys
        invariant found.None? ==> TargetsFinished(graph, id, index, finished)
      {
        var edge := graph.edges[index];
        EdgeFacts(graph, state, found, before, finished, id, index);
        if found.Some? || edge.from != id {
          continue;
        }
        if edge.to in state && state[edge.to] == Open {
          found := Some(index);
          continue;
        }
        if edge.to !in state {
          FewerUnmarked(graph, old(state).Keys, state.Keys, id);
          ghost var known := finished;
          Walk(edge.to);
          TargetsStayFinished(graph, id, index, known, finished);
        }
      }
      LeaveNode(graph, state, found, before, finished, id);
      state := state[id := Done];
      finished := finished + [id];
      stack := before;
    }
  }

  ghost predicate Coherent(g: Graph, state: map<string, Mark>, found: Option<nat>,
                           stack: seq<string>, finished: seq<string>) {
    && Marks(g, state, stack, finished)
    && (stack != [] ==> stack[0] in NodeIds(g) && IsWalk(g, stack))
    && (found.None? ==> Ranked(g, finished))
    && (found.Some? ==> LiesOnCycle(g, found.value) && CycleInReach(g))
  }

  /** A call visits a declared node at the top level and an edge's target below. */
  ghost predicate MayVisit(g: Graph, stack: seq<string>, id: string) {
    && id in Names(g)
    && if stack == [] then id in NodeIds(g) else HasEdge(g, stack[|stack| - 1], id)
  }

  /** The marks say exactly which nodes are on the stack and which are finished. */
  ghost predicate Marks(g: Graph, state: map<string, Mark>, stack: seq<string>, finished: seq<string>) {
    && state.Keys <= Names(g)
    && NoDuplicates(stack) && NoDuplicates(finished)
    && (forall v :: v in state && state[v] == Open <==> v in stack)
    && (forall v :: v in state && state[v] == Done <==> v in finished)
  }

  /** Every edge out of id among the first `count` goes to a finished node. */
  ghost predicate TargetsFinished(g: Graph, id: string, count: nat, finished: seq<string>) {
    forall k :: 0 <= k < count && k < |g.edges| && g.edges[k].from == id ==> g.edges[k].to in finished
  }

  lemma EdgeFacts(g: Graph, state: map<string, Mark>, found: Option<nat>, before: seq<string>,
                  finished: seq<string>, id: string, k: nat)
    requires Coherent(g, state, found, before + [id], finished) && k < |g.edges|
    ensures TargetsFinished(g, id, k, finished) && (g.edges[k].from != id || g.edges[k].to in finished) ==>
              TargetsFinished(g, id, k + 1, finished)
    ensures g.edges[k].from == id ==> MayVisit(g, before + [id], g.edges[k].to)
    ensures g.edges[k].to in state && state[g.edges[k].to] == Done ==> g.edges[k].to in finished
    ensures g.edges[k].from == id && g.edges[k].to in state && state[g.edges[k].to] == Open ==>
              Coherent(g, state, Some(k), before + [id], finished)
  {
    var edge := g.edges[k];
    var stack := before + [id];
    assert HasEdge(g, edge.from, edge.to);
    if edge.from == id && edge.to in state && state[edge.to] == Open {
      assert edge.to in stack;
      OpenTargetClosesCycle(g, stack, k);
    }
  }

  lemma TargetsStayFinished(g: Graph, id: string, k: nat, known: seq<string>, finished: seq<string>)
    requires TargetsFinished(g, id, k, known) && known <= finished && k < |g.edges|
    ensures TargetsFinished(g, id, k, finished)
    ensures g.edges[k].from == id && g.edges[k].to in finished ==> TargetsFinished(g, id, k + 1, finished)
  {}

  lemma FewerUnmarked(g: Graph, before: set<string>, now: set<string>, id: string)
    requires before + {id} <= now && id in Names(g) && id !in before
    ensures |Names(g) - now| < |Names(g) - before|
  {
    assert id in Names(g) - before && id !in Names(g) - now;
    SubsetSize(Names(g) - now, Names(g) - before);
  }

  lemma EnterNode(g: Graph, state: map<string, Mark>, stack: seq<string>, finished: seq<string>, id: string)
    requires Coherent(g, state, None, stack, finished) && MayVisit(g, stack, id) && id !in state
    ensures Coherent(g, state[id := Open], None, stack + [id], finished)
    ensures TargetsFinished(g, id, 0, finished) && id in Names(g)
  {}

  lemma LeaveNode(g: Graph, state: map<string, Mark>, found: Option<nat>, before: seq<string>,
                  finished: seq<string>, id: string)
    requires Coherent(g, state, found, before + [id], finished)
    requires found.None? ==> TargetsFinished(g, id, |g.edges|, finished)
    ensures Coherent(g, state[id := Done], found, before, finished + [id])
  {
    var stack := before + [id];
    assert stack[|before|] == id;
    assert forall i :: 0 <= i < |before| ==> before[i] == stack[i];
    assert id in stack && id !in before && id !in finished;
    FinishRanked(g, finished, id, found);
  }

  lemma OpenTargetClosesCycle(g: Graph, stack: seq<string>, index: nat)
    requires IsWalk(g, stack) && stack[0] in NodeIds(g) && index < |g.edges|
    requires g.edges[index].from == stack[|stack| - 1] && g.edges[index].to in stack
    ensures LiesOnCycle(g, index) && CycleInReach(g)
  {
    var edge := g.edges[index];
    var k := Position(stack, edge.to);
    assert WalkBetween(g, stack[k..], edge.to, edge.from);
    assert HasEdge(g, edge.from, edge.to);
    var cycle := stack[k..] + [edge.to];
    assert WalkBetween(g, cycle, edge.to, edge.to);
    assert Reaches(g, edge.to, edge.to);
    if k > 0 {
      assert WalkBetween(g, stack[..k + 1], stack[0], edge.to);
      assert Reaches(g, stack[0], edge.to);
    }
  }

  lemma FinishRanked(g: Graph, finished: seq<string>, id: string, found: Option<nat>)
    requires found.None? ==> Ranked(g, finished)
    requires found.None? ==> TargetsFinished(g, id, |g.edges|, finished)
    ensures found.None? ==> Ranked(g, finished + [id])
  {
    var order := finished + [id];
    if found.None? {
      forall i, e | 0 <= i < |order| && e in g.edges && e.from == order[i] ensures e.to in order[..i] {
        if i < |finished| {
          assert order[..i] == finished[..i];
        } else {
          assert order[..i] == finished;
        }
      }
    }
  }

  /** The index of an edge that closes a cycle, or None exactly when no declared node leads to a cycle.
      In a graph whose edges join declared nodes that is exactly when the graph is acyclic, which is exactly
      when a topological sort succeeds. */
  method CycleEdgeIndex(g: Graph) returns (r: Option<nat>)
    ensures r.Some? ==> LiesOnCycle(g, r.value)
    ensures r.None? <==> !CycleInReach(g)
    ensures WellFormed(g) ==> (r.None? <==> Acyclic(g))
    ensures WellFormed(g) ==> (r.None? <==> exists order :: IsTopologicalOrder(g, order))
  {
    hide Marks, Ranked, LiesOnCycle, CycleInReach, Acyclic, IsTopologicalOrder, Names, NodeIds, WellFormed;
    var finder := new CycleFinder(g);
    for i := 0 to |g.nodes|
      invariant fresh(finder) && finder.graph == g && finder.Valid() && finder.stack == []
      invariant finder.found.None?
      invariant NodesFinished(g, i, finder.finished)
    {
      NodeFacts(g, i, finder.state, finder.finished);
      ghost var known := finder.finished;
      if g.nodes[i].id !in finder.state {
        assert MayVisit(g, [], g.nodes[i].id);
        finder.Walk(g.nodes[i].id);
      }
      if finder.found.Some? {
        CycleInReachMeansCyclic(g);
        return finder.found;
      }
    }
    RankedNodesMeanNoCycle(g, finder.finished);
    RankedNodesGiveTopologicalOrder(g, finder.state, finder.finished);
    return None;
  }

  /** The first `count` nodes are finished. */
  ghost predicate NodesFinished(g: Graph, count: nat, finished: seq<string>) {
    forall k :: 0 <= k < count && k < |g.nodes| ==> g.nodes[k].id in finished
  }

  lemma NodeFacts(g: Graph, i: nat, state: map<string, Mark>, finished: seq<string>)
    requires i < |g.nodes| && Marks(g, state, [], finished)
    ensures g.nodes[i].id in NodeIds(g) && g.nodes[i].id in Names(g)
    ensures g.nodes[i].id in state ==> g.nodes[i].id in finished
  {}

  lemma CycleInReachMeansCyclic(g: Graph)
    requires CycleInReach(g)
    ensures !Acyclic(g) && !exists order :: IsTopologicalOrder(g, order)
  {
    forall order | IsTopologicalOrder(g, order) ensures false {
      TopologicalOrderMeansAcyclic(g, order);
    }
  }

  lemma RankedNodesMeanNoCycle(g: Graph, order: seq<string>)
    requires Ranked(g, order) && NodesFinished(g, |g.nodes|, order)
    ensures !CycleInReach(g)
  {
    forall start, v | start in NodeIds(g) && (start == v || Reaches(g, start, v)) && Reaches(g, v, v) ensures false {
      var i := Position(order, start);
      if start != v {
        var p :| |p| >= 2 && WalkBetween(g, p, start, v);
        i := RankedWalkDescends(g, order, p, i);
      }
      var c :| |c| >= 2 && WalkBetween(g, c, v, v);
      NoRankedCycle(g, order, c, i);
    }
  }

  lemma {:induction false} NoRankedCycle(g: Graph, order: seq<string>, c: seq<string>, i: nat)
    requires Ranked(g, order) && i < |order| && c != [] && order[i] == c[0]
    ensures !(|c| >= 2 && WalkBetween(g, c, c[0], c[0]))
  {
    if |c| >= 2 && WalkBetween(g, c, c[0], c[0]) {
      var j := RankedWalkDescends(g, order, c, i);
      NoRankedCycle(g, order, c, j);
    }
  }

  function Reversed(s: seq<string>): (r: seq<string>)
    ensures |r| == |s| && forall k :: 0 <= k < |s| ==> r[k] == s[|s| - 1 - k]
  {
    seq(|s|, k requires 0 <= k < |s| => s[|s| - 1 - k])
  }

  lemma RankedNodesGiveTopologicalOrder(g: Graph, state: map<string, Mark>, finished: seq<string>)
    requires Ranked(g, finished) && Marks(g, state, [], finished) && NodesFinished(g, |g.nodes|, finished)
    ensures WellFormed(g) ==> Acyclic(g) && exists order :: IsTopologicalOrder(g, order)
  {
    if WellFormed(g) {
      assert Names(g) == NodeIds(g);
      assert Elements(finished) == NodeIds(g) by {
        forall v | v in NodeIds(g) ensures v in finished {
          var n :| n in g.nodes && n.id == v;
          assert g.nodes[Position(g.nodes, n)] == n;
        }
      }
      ReversedIsTopologicalOrder(g, finished);
      TopologicalOrderMeansAcyclic(g, Reversed(finished));
    }
  }

  lemma ReversedIsTopologicalOrder(g: Graph, finished: seq<string>)
    requires WellFormed(g) && Ranked(g, finished) && NoDuplicates(finished) && Elements(finished) == NodeIds(g)
    ensures IsTopologicalOrder(g, Reversed(finished))
  {
    var order := Reversed(finished);
    forall v ensures v in order <==> v in finished {
      if v in finished {
        assert order[|finished| - 1 - Position(finished, v)] == v;
      }
    }
    assert Elements(order) == NodeIds(g);
    forall e | e in g.edges
      ensures e.from in order && e.to in order && Position(order, e.from) < Position(order, e.to)
    {
      var i := Position(finished, e.from);
      var j :| 0 <= j < i && finished[j] == e.to;
      assert order[|finished| - 1 - i] == e.from && order[|finished| - 1 - j] == e.to;
    }
  }

  // ---- what certainly runs before a node ----------------------------------------

  function Without(s: seq<string>, v: string): (r: seq<string>)
    ensures forall x :: x in r <==> x in s && x != v
  {
    if s == [] then []
    else if s[0] == v then Without(s[1..], v)
    else [s[0]] + Without(s[1..], v)
  }

  lemma {:induction false} WithoutKeepsDistinct(s: seq<string>, v: string)
    requires NoDuplicates(s)
    ensures NoDuplicates(Without(s, v))
  {
    if s == [] {
    } else {
      WithoutKeepsDistinct(s[1..], v);
      assert s[0] !in s[1..];
      assert s[0] !in Without(s[1..], v);
    }
  }

  /** Every edge into v starts at something already found. */
  ghost predicate SourcesFound(g: Graph, v: string, found: seq<string>) {
    forall e :: e in g.edges && e.to == v ==> e.from in found
  }

  lemma {:induction false} ClosedUnderSources(g: Graph, found: seq<string>, nodeId: string, p: seq<string>)
    requires forall v :: v == nodeId || v in found ==> SourcesFound(g, v, found)
    requires IsWalk(g, p) && |p| >= 2 && (p[|p| - 1] == nodeId || p[|p| - 1] in found)
    ensures p[0] in found
  {
    var n := |p| - 1;
    assert HasEdge(g, p[n - 1], p[n]);
    assert SourcesFound(g, p[n], found);
    if n <= 1 {
    } else {
      ClosedUnderSources(g, found, nodeId, p[..n]);
    }
  }

  lemma SourceReaches(g: Graph, e: Edge, nodeId: string)
    requires e in g.edges && (e.to == nodeId || Reaches(g, e.to, nodeId))
    ensures Reaches(g, e.from, nodeId)
  {
    assert HasEdge(g, e.from, e.to);
    if e.to == nodeId {
      assert WalkBetween(g, [e.from, e.to], e.from, nodeId);
    } else {
      var p :| |p| >= 2 && WalkBetween(g, p, e.to, nodeId);
      assert WalkBetween(g, [e.from] + p, e.from, nodeId);
    }
  }

  /** What the worklist keeps: everything found reaches nodeId, everything waiting was found, and whatever is
      neither waiting nor being expanded has all its sources found. */
  ghost predicate Closing(g: Graph, nodeId: string, found: seq<string>, queue: seq<string>, expanding: set<string>) {
    && NoDuplicates(found)
    && Elements(found) <= Names(g)
    && (forall x :: x in found ==> Reaches(g, x, nodeId))
    && (forall x :: x in queue ==> x == nodeId || x in found)
    && (forall v :: (v == nodeId || v in found) && v !in queue && v !in expanding ==> SourcesFound(g, v, found))
  }

  lemma FindSource(g: Graph, nodeId: string, found: seq<string>, queue: seq<string>, current: string, e: Edge)
    requires Closing(g, nodeId, found, queue, {current}) && (current == nodeId || current in found)
    requires e in g.edges && e.to == current && e.from !in found
    ensures Closing(g, nodeId, found + [e.from], queue + [e.from], {current})
    ensures |Names(g) - Elements(found + [e.from])| < |Names(g) - Elements(found)|
  {
    hide Reaches, Names, Elements, NoDuplicates;
    SourceReaches(g, e, nodeId);
    FoundGrows(g, found, e);
  }

  lemma FoundGrows(g: Graph, found: seq<string>, e: Edge)
    requires e in g.edges && e.from !in found
    ensures Elements(found) <= Names(g) ==> Elements(found + [e.from]) <= Names(g)
    ensures |Names(g) - Elements(found + [e.from])| < |Names(g) - Elements(found)|
    ensures NoDuplicates(found) ==> NoDuplicates(found + [e.from])
  {
    assert e.from in Names(g);
    assert Elements(found + [e.from]) == Elements(found) + {e.from};
    SubsetSize(Names(g) - Elements(found + [e.from]), Names(g) - Elements(found));
  }

  lemma NothingFoundYet(g: Graph, nodeId: string)
    ensures Closing(g, nodeId, [], [nodeId], {})
    ensures forall v, found: seq<string> :: SourcesSeen(g, v, 0, found)
  {}

  lemma StartExpanding(g: Graph, nodeId: string, found: seq<string>, queue: seq<string>)
    requires Closing(g, nodeId, found, queue, {}) && queue != []
    ensures Closing(g, nodeId, found, queue[1..], {queue[0]}) && (queue[0] == nodeId || queue[0] in found)
  {}

  lemma FinishExpanding(g: Graph, nodeId: string, found: seq<string>, queue: seq<string>, current: string)
    requires Closing(g, nodeId, found, queue, {current}) && SourcesSeen(g, current, |g.edges|, found)
    ensures Closing(g, nodeId, found, queue, {})
  {}

  /** The sources of the first `count` edges into v are found. */
  ghost predicate SourcesSeen(g: Graph, v: string, count: nat, found: seq<string>) {
    forall j :: 0 <= j < count && j < |g.edges| && g.edges[j].to == v ==> g.edges[j].from in found
  }

  lemma SeeSource(g: Graph, v: string, k: nat, known: seq<string>, found: seq<string>)
    requires SourcesSeen(g, v, k, known) && known <= found && k < |g.edges|
    requires g.edges[k].to == v ==> g.edges[k].from in found
    ensures SourcesSeen(g, v, k + 1, found)
  {}

  lemma ClosedIsComplete(g: Graph, nodeId: string, found: seq<string>)
    requires Closing(g, nodeId, found, [], {})
    ensures NoDuplicates(found) && forall x :: x in found <==> Reaches(g, x, nodeId)
  {
    forall x | Reaches(g, x, nodeId) ensures x in found {
      var p :| |p| >= 2 && WalkBetween(g, p, x, nodeId);
      ClosedUnderSources(g, found, nodeId, p);
    }
  }

  /** The worklist closure: without duplicates, exactly the other nodes with a path to this one. */
  method AncestorsOf(g: Graph, nodeId: string) returns (ancestors: seq<string>)
    ensures NoDuplicates(ancestors)
    ensures forall x :: x in ancestors <==> x != nodeId && Reaches(g, x, nodeId)
  {
    hide Closing, Names, Reaches, SourcesFound, SourcesSeen, Elements;
    var found: seq<string> := [];
    var queue := [nodeId];
    NothingFoundYet(g, nodeId);
    while |queue| > 0
      invariant Closing(g, nodeId, found, queue, {})
      decreases |Names(g) - Elements(found)|, |queue|
    {
      StartExpanding(g, nodeId, found, queue);
      var current := queue[0];
      queue := queue[1..];
      ghost var before, waiting := found, queue;
      for k := 0 to |g.edges|
        invariant Closing(g, nodeId, found, queue, {current}) && (current == nodeId || current in found)
        invariant SourcesSeen(g, current, k, found)
        invariant |Names(g) - Elements(found)| <= |Names(g) - Elements(before)|
        invariant |Names(g) - Elements(found)| < |Names(g) - Elements(before)| || queue == waiting
      {
        var edge := g.edges[k];
        if edge.to != current || edge.from in found {
          SeeSource(g, current, k, found, found);
          continue;
        }
        FindSource(g, nodeId, found, queue, current, edge);
        SeeSource(g, current, k, found, found + [edge.from]);
        found := found + [edge.from];
        queue := queue + [edge.from];
      }
      FinishExpanding(g, nodeId, found, queue, current);
    }
    assert queue == [];
    ClosedIsComplete(g, nodeId, found);
    WithoutKeepsDistinct(found, nodeId);
    ancestors := Without(found, nodeId);
  }

  /** Offering only ancestors can never name a node that has not run: an ancestor is earlier in every
      order the server could choose. */
  lemma AncestorIsEarlierInEveryOrder(g: Graph, order: seq<string>, ancestor: string, nodeId: string)
    requires IsTopologicalOrder(g, order) && Reaches(g, ancestor, nodeId)
    ensures ancestor in order && nodeId in order && ancestor != nodeId
    ensures Position(order, ancestor) < Position(order, nodeId)
  {
    var p :| |p| >= 2 && WalkBetween(g, p, ancestor, nodeId);
    TopologicalWalkAscends(g, order, p);
  }

  // ---- edits --------------------------------------------------------------------

  function GeneratedId(index: nat): string {
    "n" + Decimal(index)
  }

  lemma GeneratedIdInjective(i: nat, j: nat)
    requires GeneratedId(i) == GeneratedId(j)
    ensures i == j
  {
    assert GeneratedId(i)[1..] == Decimal(i) && GeneratedId(j)[1..] == Decimal(j);
    DecimalInjective(i, j);
  }

  /** Counting up past every used id needs at most one more step than there are ids. */
  lemma UsedPrefixIsShort(used: set<string>, n: nat)
    requires forall k :: 1 <= k < n ==> GeneratedId(k) in used
    ensures n <= |used| + 1
  {
    if n > 1 {
      var names := seq(n - 1, k requires 0 <= k < n - 1 => GeneratedId(k + 1));
      forall i, j | 0 <= i < j < |names| ensures names[i] != names[j] {
        if names[i] == names[j] {
          GeneratedIdInjective(i + 1, j + 1);
        }
      }
      DistinctSize(names);
      SubsetSize(Elements(names), used);
    }
  }

  /** `n1`, `n2`, ... skipping every id in use: the first free one. */
  method NextNodeId(g: Graph) returns (id: string)
    ensures id !in NodeIds(g)
    ensures IsNextId(g, id)
  {
    var used := NodeIds(g);
    var index := 1;
    while GeneratedId(index) in used
      invariant index >= 1
      invariant forall k: nat :: 1 <= k < index ==> GeneratedId(k) in used
      decreases |used| + 1 - index
    {
      UsedPrefixIsShort(used, index + 1);
      index := index + 1;
    }
    return GeneratedId(index);
  }

  const COLUMN := 260.0

  function FirstAnswer(nodes: seq<Node>): Option<Node> {
    if nodes == [] then None
    else if nodes[0].kind == Answer then Some(nodes[0])
    else FirstAnswer(nodes[1..])
  }

  ghost predicate IsFirstAnswer(nodes: seq<Node>, i: int) {
    0 <= i < |nodes| && nodes[i].kind == Answer && forall k :: 0 <= k < i ==> nodes[k].kind != Answer
  }

  lemma {:induction false} FirstAnswerStandsAt(nodes: seq<Node>)
    ensures FirstAnswer(nodes).None? <==> forall i :: !IsFirstAnswer(nodes, i)
    ensures FirstAnswer(nodes).Some? ==> exists i :: IsFirstAnswer(nodes, i) && FirstAnswer(nodes).value == nodes[i]
  {
    if nodes == [] {
    } else if nodes[0].kind == Answer {
      assert IsFirstAnswer(nodes, 0);
    } else {
      FirstAnswerStandsAt(nodes[1..]);
      forall i | IsFirstAnswer(nodes, i) ensures IsFirstAnswer(nodes[1..], i - 1) {
        assert forall k :: 0 <= k < i - 1 ==> nodes[1..][k] == nodes[k + 1];
      }
      if i :| IsFirstAnswer(nodes[1..], i) && FirstAnswer(nodes[1..]) == Some(nodes[1..][i]) {
        assert forall k :: 0 < k < |nodes| ==> nodes[k] == nodes[1..][k - 1];
        assert IsFirstAnswer(nodes, i + 1);
      }
    }
  }

  function MaxX(nodes: seq<Node>, floor: real): (m: real)
    ensures m >= floor && forall n :: n in nodes ==> n.x <= m
    ensures m == floor || exists n :: n in nodes && n.x == m
  {
    if nodes == [] then floor
    else MaxX(nodes[1..], if nodes[0].x > floor then nodes[0].x else floor)
  }

  function ShiftRight(nodes: seq<Node>, x: real): (r: seq<Node>)
    ensures |r| == |nodes|
    ensures forall i :: 0 <= i < |nodes| ==>
              r[i] == (if nodes[i].x >= x then nodes[i].(x := nodes[i].x + COLUMN) else nodes[i])
  {
    seq(|nodes|, i requires 0 <= i < |nodes| =>
      if nodes[i].x >= x then nodes[i].(x := nodes[i].x + COLUMN) else nodes[i])
  }

  /** `place` is where the palette dropped the node; without one it takes the answer node's column. */
  function AddNode(g: Graph, id: string, kind: NodeKind, place: Option<(real, real)>, payload: string): Graph {
    var answer := FirstAnswer(g.nodes);
    var x := if place.Some? then place.value.0
             else if answer.Some? then answer.value.x
             else MaxX(g.nodes, 0.0) + COLUMN;
    var y := if place.Some? then place.value.1 else 0.0;
    var nodes := if place.None? && answer.Some? then ShiftRight(g.nodes, x) else g.nodes;
    Graph(nodes + [Node(id, kind, x, y, payload)], g.edges)
  }

  function RemoveNode(g: Graph, id: string): Graph {
    Graph(Kept(g.nodes, (n: Node) => n.id != id), Kept(g.edges, (e: Edge) => e.from != id && e.to != id))
  }

  function AddEdge(g: Graph, e: Edge): Graph {
    if e in g.edges then g else Graph(g.nodes, g.edges + [e])
  }

  function RemoveEdge(g: Graph, index: nat): Graph {
    if index < |g.edges| then Graph(g.nodes, g.edges[..index] + g.edges[index + 1..]) else g
  }

  function FindNode(nodes: seq<Node>, id: string): (r: Option<Node>)
    ensures r.None? <==> forall n :: n in nodes ==> n.id != id
    ensures r.Some? ==> r.value in nodes && r.value.id == id
  {
    if nodes == [] then None
    else if nodes[0].id == id then Some(nodes[0])
    else FindNode(nodes[1..], id)
  }

  function DuplicateNode(g: Graph, id: string, freshId: string): Graph {
    var node := FindNode(g.nodes, id);
    if node.None? || node.value.kind == Input || node.value.kind == Answer then g
    else
      var n := node.value;
      Graph(g.nodes + [n.(id := freshId, x := n.x + 40.0, y := n.y + 60.0)], g.edges)
  }

  lemma AddNodeKeepsWellFormed(g: Graph, id: string, kind: NodeKind, place: Option<(real, real)>, payload: string)
    requires WellFormed(g) && id !in NodeIds(g)
    ensures WellFormed(AddNode(g, id, kind, place, payload))
    ensures NodeIds(AddNode(g, id, kind, place, payload)) == NodeIds(g) + {id}
  {}

  /** Where an unplaced node lands: strictly left of the answer node that gave up its column, right of
      everything that was left of it, and the other nodes keep their horizontal order. */
  lemma AddedNodeLandsBeforeAnswer(g: Graph, id: string, kind: NodeKind, payload: string)
    ensures var r := AddNode(g, id, kind, None, payload);
            var added := r.nodes[|g.nodes|];
            && (FirstAnswer(g.nodes).None? ==> forall n :: n in g.nodes ==> n.x < added.x)
            && forall i, j :: 0 <= i < |g.nodes| && 0 <= j < |g.nodes| ==>
                 && (g.nodes[i].x < g.nodes[j].x ==> r.nodes[i].x < r.nodes[j].x)
                 && (g.nodes[i].x == g.nodes[j].x ==> r.nodes[i].x == r.nodes[j].x)
                 && (FirstAnswer(g.nodes) == Some(g.nodes[i]) ==>
                       added.x < r.nodes[i].x && (g.nodes[j].x < g.nodes[i].x ==> r.nodes[j].x < added.x))
  {}

  lemma RemoveNodeKeepsWellFormed(g: Graph, id: string)
    requires WellFormed(g)
    ensures WellFormed(RemoveNode(g, id))
    ensures NodeIds(RemoveNode(g, id)) == NodeIds(g) - {id}
    ensures forall e :: e in RemoveNode(g, id).edges <==> e in g.edges && e.from != id && e.to != id
  {
    RemovedInOrder(g, id);
    hide RemoveNode;
  }

  /** Exactly the other nodes and the edges that do not touch the node are left, in their order. */
  lemma RemovedInOrder(g: Graph, id: string)
    ensures Removed(g, id, RemoveNode(g, id))
    ensures forall n :: n in RemoveNode(g, id).nodes <==> n in g.nodes && n.id != id
    ensures forall e :: e in RemoveNode(g, id).edges <==> e in g.edges && e.from != id && e.to != id
    ensures WellFormed(g) ==> forall i, j :: 0 <= i < j < |RemoveNode(g, id).nodes| ==>
              RemoveNode(g, id).nodes[i].id != RemoveNode(g, id).nodes[j].id
  {
    var stays, apart := (n: Node) => n.id != id, (e: Edge) => e.from != id && e.to != id;
    KeptInOrder(g.nodes, stays);
    KeptInOrder(g.edges, apart);
    var ns, es := KeptAt(g.nodes, stays), KeptAt(g.edges, apart);
    assert forall i: nat :: i in ns <==> i < |g.nodes| && g.nodes[i].id != id;
    assert forall i: nat :: i in es <==> i < |g.edges| && g.edges[i].from != id && g.edges[i].to != id;
    hide Kept, KeptAt;
  }

  lemma DuplicateNodeKeepsWellFormed(g: Graph, id: string, freshId: string)
    requires WellFormed(g) && freshId !in NodeIds(g)
    ensures WellFormed(DuplicateNode(g, id, freshId))
    ensures DuplicateNode(g, id, freshId).edges == g.edges
    ensures (exists n :: n in g.nodes && n.id == id && n.kind != Input && n.kind != Answer) ==>
              NodeIds(DuplicateNode(g, id, freshId)) == NodeIds(g) + {freshId}
  {}

  lemma {:induction false} WalkThroughNewEdge(g: Graph, e: Edge, p: seq<string>)
    requires WalkBetween(Graph(g.nodes, g.edges + [e]), p, e.to, e.from)
    ensures e.to == e.from || Reaches(g, e.to, e.from)
    decreases |p|
  {
    if i :| 0 <= i < |p| - 1 && !HasEdge(g, p[i], p[i + 1]) {
      assert HasEdge(Graph(g.nodes, g.edges + [e]), p[i], p[i + 1]);
      WalkThroughNewEdge(g, e, p[..i + 1]);
    } else {
      assert WalkBetween(g, p, e.to, e.from);
    }
  }

  /** A closed walk may start anywhere on itself. */
  lemma RotatedWalk(r: Graph, c: seq<string>, i: nat)
    requires IsWalk(r, c) && i < |c| - 1 && c[0] == c[|c| - 1]
    ensures WalkBetween(r, c[i + 1..] + c[1..i + 1], c[i + 1], c[i])
  {}

  lemma CycleThroughNewEdge(g: Graph, e: Edge, c: seq<string>)
    requires Acyclic(g) && |c| >= 2 && c[0] == c[|c| - 1]
    requires IsWalk(Graph(g.nodes, g.edges + [e]), c) || IsWalk(g, c)
    ensures e.to == e.from || Reaches(g, e.to, e.from)
  {
    var r := Graph(g.nodes, g.edges + [e]);
    if i :| 0 <= i < |c| - 1 && !HasEdge(g, c[i], c[i + 1]) {
      assert HasEdge(r, c[i], c[i + 1]);
      RotatedWalk(r, c, i);
      WalkThroughNewEdge(g, e, c[i + 1..] + c[1..i + 1]);
    } else {
      ClosedWalkIsCycle(g, c);
    }
  }

  lemma ClosedWalkIsCycle(g: Graph, c: seq<string>)
    requires |c| >= 2 && c[0] == c[|c| - 1] && IsWalk(g, c)
    ensures Reaches(g, c[0], c[0])
  {}

  /** Drawing an edge keeps an acyclic graph acyclic exactly when its target did not already lead to its source. */
  lemma AddEdgeAcyclicIff(g: Graph, e: Edge)
    requires Acyclic(g)
    ensures Acyclic(AddEdge(g, e)) <==> e.from != e.to && !Reaches(g, e.to, e.from)
  {
    var r := AddEdge(g, e);
    assert HasEdge(r, e.from, e.to) by {
      assert e in r.edges;
    }
    if e.from == e.to {
      assert WalkBetween(r, [e.from, e.from], e.from, e.from);
      assert Reaches(r, e.from, e.from);
    } else if Reaches(g, e.to, e.from) {
      var p :| |p| >= 2 && WalkBetween(g, p, e.to, e.from);
      assert forall i :: 0 <= i < |p| - 1 ==> HasEdge(g, p[i], p[i + 1]) && HasEdge(r, p[i], p[i + 1]);
      assert WalkBetween(r, [e.from] + p, e.from, e.from);
      assert Reaches(r, e.from, e.from);
    } else {
      forall v | Reaches(r, v, v) ensures false {
        var c :| |c| >= 2 && WalkBetween(r, c, v, v);
        CycleThroughNewEdge(g, e, c);
      }
    }
  }

  // ---- runs of edits --------------------------------------------------------------

  /** What the canvas does to a graph. */
  datatype Edit =
    | Add(kind: NodeKind, place: Option<(real, real)>, payload: string)
    | Remove(id: string)
    | Connect(edge: Edge)
    | Disconnect(index: nat)
    | Duplicate(id: string)

  /** The first generated id that is free. */
  ghost predicate IsNextId(g: Graph, id: string) {
    exists index: nat ::
      && index >= 1 && id == GeneratedId(index) && id !in NodeIds(g)
      && forall k: nat :: 1 <= k < index ==> GeneratedId(k) in NodeIds(g)
  }

  /** The nodes around a new one at x: it takes the first answer node's column, which moves to the right with all that
      is not left of it; without an answer node it stands one column right of everything. */
  ghost predicate MakesRoom(nodes: seq<Node>, moved: seq<Node>, x: real) {
    if exists i :: IsFirstAnswer(nodes, i) then
      && (exists i :: IsFirstAnswer(nodes, i) && x == nodes[i].x)
      && |moved| == |nodes|
      && forall k :: 0 <= k < |nodes| ==>
           moved[k] == nodes[k].(x := nodes[k].x + if nodes[k].x >= x then 260.0 else 0.0)
    else
      && moved == nodes && x >= 260.0 && (forall n :: n in nodes ==> n.x + 260.0 <= x)
      && (x == 260.0 || exists n :: n in nodes && n.x + 260.0 == x)
  }

  /** Only the node and the edges that touch it are gone. */
  ghost predicate Removed(before: Graph, id: string, after: Graph) {
    exists ns, es ::
      && InStoredOrder(before.nodes, after.nodes, ns) && InStoredOrder(before.edges, after.edges, es)
      && (forall i: nat :: i in ns <==> i < |before.nodes| && before.nodes[i].id != id)
      && (forall i: nat :: i in es <==> i < |before.edges| && before.edges[i].from != id && before.edges[i].to != id)
  }

  /** What each edit leaves, told without the functions that carry it out. */
  ghost predicate Leaves(before: Graph, edit: Edit, after: Graph) {
    match edit
    case Add(kind, place, payload) =>
      && after.edges == before.edges && |after.nodes| == |before.nodes| + 1
      && var added, others := after.nodes[|before.nodes|], after.nodes[..|before.nodes|];
         && IsNextId(before, added.id) && added.kind == kind && added.payload == payload
         && (place.Some? ==> (added.x, added.y) == place.value && others == before.nodes)
         && (place.None? ==> added.y == 0.0 && MakesRoom(before.nodes, others, added.x))
    case Remove(id) => Removed(before, id, after)
    case Connect(e) =>
      after.nodes == before.nodes && after.edges == if e in before.edges then before.edges else before.edges + [e]
    case Disconnect(index) =>
      && after.nodes == before.nodes
      && |after.edges| == |before.edges| - (if index < |before.edges| then 1 else 0)
      && forall i :: 0 <= i < |after.edges| ==> after.edges[i] == before.edges[if i < index then i else i + 1]
    case Duplicate(id) =>
      && after.edges == before.edges
      && if exists n :: n in before.nodes && n.id == id && n.kind != Input && n.kind != Answer then
           |after.nodes| == |before.nodes| + 1 && after.nodes[..|before.nodes|] == before.nodes
           && var copy := after.nodes[|before.nodes|];
              && IsNextId(before, copy.id)
              && exists n ::
                   && n in before.nodes && n.id == id
                   && copy == Node(copy.id, n.kind, n.x + 40.0, n.y + 60.0, n.payload)
         else after.nodes == before.nodes
  }

  /** Every edit of a well-formed graph does what it says and nothing else. */
  lemma EditLeaves(before: Graph, edit: Edit, after: Graph)
    requires WellFormed(before) && Edited(before, edit, after)
    ensures Leaves(before, edit, after)
  {
    hide IsNextId, Removed, NodeIds;
    match edit
    case Add(kind, place, payload) => AddedMakesRoom(before, after.nodes[|before.nodes|].id, kind, payload);
    case Remove(id) => RemovedInOrder(before, id);
    case Duplicate(id) =>
      var copy :| IsNextId(before, copy) && after == DuplicateNode(before, id, copy);
      CopyMade(before, id, copy);
    case _ =>
  }

  lemma AddedMakesRoom(g: Graph, id: string, kind: NodeKind, payload: string)
    ensures var r := AddNode(g, id, kind, None, payload);
            MakesRoom(g.nodes, r.nodes[..|g.nodes|], r.nodes[|g.nodes|].x)
  {
    FirstAnswerStandsAt(g.nodes);
    hide IsFirstAnswer, FirstAnswer;
  }

  lemma CopyMade(g: Graph, id: string, copy: string)
    requires WellFormed(g) && IsNextId(g, copy)
    ensures Leaves(g, Duplicate(id), DuplicateNode(g, id, copy))
  {
    hide IsNextId, NodeIds;
  }

  ghost predicate Edited(before: Graph, edit: Edit, after: Graph) {
    match edit
    case Add(kind, place, payload) =>
      exists id :: IsNextId(before, id) && after == AddNode(before, id, kind, place, payload)
    case Remove(id) => after == RemoveNode(before, id)
    case Connect(e) => after == AddEdge(before, e)
    case Disconnect(index) => after == RemoveEdge(before, index)
    case Duplicate(id) => exists copy :: IsNextId(before, copy) && after == DuplicateNode(before, id, copy)
  }

  /** The canvas draws edges between nodes it shows. */
  predicate Drawable(g: Graph, edit: Edit) {
    edit.Connect? ==> edit.edge.from in NodeIds(g) && edit.edge.to in NodeIds(g)
  }

  lemma EditKeepsWellFormed(before: Graph, edit: Edit, after: Graph)
    requires WellFormed(before) && Drawable(before, edit) && Edited(before, edit, after)
    ensures WellFormed(after)
  {
    hide AddNode, RemoveNode, DuplicateNode, IsNextId;
    match edit
    case Add(kind, place, payload) =>
      var id :| IsNextId(before, id) && after == AddNode(before, id, kind, place, payload);
      NextIdIsFree(before, id);
      AddNodeKeepsWellFormed(before, id, kind, place, payload);
    case Remove(id) =>
      RemoveNodeKeepsWellFormed(before, id);
    case Duplicate(id) =>
      var copy :| IsNextId(before, copy) && after == DuplicateNode(before, id, copy);
      NextIdIsFree(before, copy);
      DuplicateNodeKeepsWellFormed(before, id, copy);
    case _ =>
  }

  lemma NextIdIsFree(g: Graph, id: string)
    requires IsNextId(g, id)
    ensures id !in NodeIds(g)
  {}

  lemma FewerEdgesKeepAcyclic(g: Graph, h: Graph)
    requires Acyclic(g) && forall e :: e in h.edges ==> e in g.edges
    ensures Acyclic(h)
  {
    forall v | Reaches(h, v, v) ensures false {
      var p :| |p| >= 2 && WalkBetween(h, p, v, v);
      forall i | 0 <= i < |p| - 1 ensures HasEdge(g, p[i], p[i + 1]) {
        assert HasEdge(h, p[i], p[i + 1]);
      }
      assert WalkBetween(g, p, v, v);
      assert Reaches(g, v, v);
    }
  }

  /** Of all edits only drawing an edge can close a cycle, and it does so exactly when the edge's target already led to
      its source (or is its source). */
  lemma EditKeepsAcyclicIff(before: Graph, edit: Edit, after: Graph)
    requires Acyclic(before) && Edited(before, edit, after)
    ensures Acyclic(after) <==>
              (edit.Connect? ==> edit.edge.from != edit.edge.to && !Reaches(before, edit.edge.to, edit.edge.from))
  {
    hide Reaches, Acyclic;
    if edit.Connect? {
      AddEdgeAcyclicIff(before, edit.edge);
    } else {
      if edit.Remove? {
        RemovedInOrder(before, edit.id);
      }
      FewerEdgesKeepAcyclic(before, after);
    }
  }

  /** From an acyclic well-formed graph, a run of edits whose drawn edges join nodes and close no path back keeps every
      graph on the way well formed and acyclic, so a server always finds an order to run it in. */
  lemma {:induction false} EditingKeepsRunnable(graphs: seq<Graph>, edits: seq<Edit>)
    requires |graphs| == |edits| + 1 && WellFormed(graphs[0]) && Acyclic(graphs[0])
    requires forall i :: 0 <= i < |edits| ==>
               && Drawable(graphs[i], edits[i]) && Edited(graphs[i], edits[i], graphs[i + 1])
               && (edits[i].Connect? ==>
                     edits[i].edge.from != edits[i].edge.to &&
                       !Reaches(graphs[i], edits[i].edge.to, edits[i].edge.from))
    ensures forall i :: 0 <= i < |graphs| ==> WellFormed(graphs[i]) && Acyclic(graphs[i])
  {
    hide WellFormed, Acyclic, Edited, Reaches, Drawable;
    if edits == [] {
    } else {
      EditKeepsWellFormed(graphs[0], edits[0], graphs[1]);
      EditKeepsAcyclicIff(graphs[0], edits[0], graphs[1]);
      EditingKeepsRunnable(graphs[1..], edits[1..]);
      forall i | 0 < i < |graphs| ensures WellFormed(graphs[i]) && Acyclic(graphs[i]) {
        assert graphs[i] == graphs[1..][i - 1];
      }
    }
  }
}
