/** Detecting circular research dependencies (server/domain/content/validator.py). */
module ContentValidator {
  import opened Sorting
  import opened Text
  import opened Totals

  // ---------------------------------------------------------------- the dependency graph

  /** A research item as the content pack states it; an empty unlockResearchId stands for none. */
  datatype ResearchItem = ResearchItem(id: string, unlockResearchId: string, prerequisiteIds: seq<string>)

  type Graph = map<string, seq<string>>

  function Normalized(ids: seq<string>): seq<string> {
    if ids == [] then []
    else (if Strip(ids[0]) != [] then [Strip(ids[0])] else []) + Normalized(ids[1..])
  }

  function Dependencies(item: ResearchItem): seq<string> {
    (if item.unlockResearchId != [] then [Strip(item.unlockResearchId)] else []) + Normalized(item.prerequisiteIds)
  }

  /** The graph of the pack: later items with the same id replace earlier ones. */
  function GraphOf(research: seq<ResearchItem>): Graph {
    if research == [] then map[]
    else
      var graph := GraphOf(research[..|research| - 1]);
      var item := research[|research| - 1];
      if Strip(item.id) == [] then graph else graph[Strip(item.id) := Dependencies(item)]
  }

  /** A dependency between two known research ids. */
  ghost predicate Edge(graph: Graph, a: string, b: string) {
    a in graph && b in graph && b in graph[a]
  }

  ghost predicate IsPath(graph: Graph, path: seq<string>) {
    forall i :: 0 <= i < |path| - 1 ==> Edge(graph, path[i], path[i + 1])
  }

  ghost predicate IsCycle(graph: Graph, cycle: seq<string>) {
    2 <= |cycle| && cycle[0] == cycle[|cycle| - 1] && IsPath(graph, cycle)
  }

  ghost predicate HasCycle(graph: Graph) {
    exists cycle :: IsCycle(graph, cycle)
  }

  function Joined(path: seq<string>): string {
    if path == [] then ""
    else if |path| == 1 then path[0]
    else path[0] + " -> " + Joined(path[1..])
  }

  function Message(cycle: seq<string>): string {
    "circular dependency: " + Joined(cycle)
  }

  ghost predicate ReportsCycle(graph: Graph, message: string) {
    exists cycle :: IsCycle(graph, cycle) && message == Message(cycle)
  }

  /** Joining two paths puts one arrow between them. */
  lemma {:induction false} JoinedPaths(first: seq<string>, second: seq<string>)
    requires first != [] && second != []
    ensures Joined(first + second) == Joined(first) + " -> " + Joined(second)
  {
    var path := first + second;
    if |first| == 1 {
      assert path[1..] == second;
    } else {
      assert path[1..] == first[1..] + second;
      JoinedPaths(first[1..], second);
    }
  }

  /** The message for a cycle of two items. */
  lemma MessageReads(a: string, b: string)
    ensures Message([a, b, a]) == "circular dependency: " + a + " -> " + b + " -> " + a
  {
    JoinedPaths([a], [b] + [a]);
    JoinedPaths([b], [a]);
    assert [a] + ([b] + [a]) == [a, b, a];
  }

  // ---------------------------------------------------------------- dependencies as the pack states them

  /** The item names b, stripped, as its unlock research or as one of its prerequisites. */
  ghost predicate Names(item: ResearchItem, b: string) {
    || (item.unlockResearchId != [] && b == Strip(item.unlockResearchId))
    || (b != [] && exists i :: 0 <= i < |item.prerequisiteIds| && b == Strip(item.prerequisiteIds[i]))
  }

  ghost predicate Known(research: seq<ResearchItem>, b: string) {
    b != [] && exists k :: 0 <= k < |research| && Strip(research[k].id) == b
  }

  /** The k-th item is the last one with this id, and so the one that counts. */
  ghost predicate LastWith(research: seq<ResearchItem>, id: string, k: int) {
    && 0 <= k < |research| && Strip(research[k].id) == id
    && forall j :: k < j < |research| ==> Strip(research[j].id) != id
  }

  /** In the pack, the research item a depends on the research item b. */
  ghost predicate Depends(research: seq<ResearchItem>, a: string, b: string) {
    && a != [] && Known(research, b)
    && exists k :: LastWith(research, a, k) && Names(research[k], b)
  }

  /** A cycle of dependencies in the pack. */
  ghost predicate IsPackCycle(research: seq<ResearchItem>, cycle: seq<string>) {
    && 2 <= |cycle| && cycle[0] == cycle[|cycle| - 1]
    && forall i :: 0 <= i < |cycle| - 1 ==> Depends(research, cycle[i], cycle[i + 1])
  }

  ghost predicate HasPackCycle(research: seq<ResearchItem>) {
    exists cycle :: IsPackCycle(research, cycle)
  }

  /** The message spells out a cycle of the pack. */
  ghost predicate SpellsCycle(research: seq<ResearchItem>, message: string) {
    exists cycle :: IsPackCycle(research, cycle) && message == Message(cycle)
  }

  lemma {:induction false} NormalizedMembers(ids: seq<string>, b: string)
    ensures b in Normalized(ids) <==> b != [] && exists i :: 0 <= i < |ids| && b == Strip(ids[i])
  {
    if ids != [] {
      NormalizedMembers(ids[1..], b);
      var rest := ids[1..];
      if i :| 0 <= i < |rest| && b == Strip(rest[i]) {
        assert b == Strip(ids[i + 1]);
      }
      if i :| 0 <= i < |ids| && b == Strip(ids[i]) {
        assert i > 0 ==> rest[i - 1] == ids[i];
      }
    }
  }

  lemma DependenciesAreNamed(item: ResearchItem, b: string)
    ensures b in Dependencies(item) <==> Names(item, b)
  {
    hide Strip;
    NormalizedMembers(item.prerequisiteIds, b);
  }

  /** The nodes of the graph are the known ids, each with the dependencies of its last item. */
  lemma {:induction false} GraphHolds(research: seq<ResearchItem>, a: string)
    ensures a in GraphOf(research) <==> Known(research, a)
    ensures a in GraphOf(research) ==>
              exists k :: LastWith(research, a, k) && GraphOf(research)[a] == Dependencies(research[k])
    decreases |research|
  {
    hide Strip, Dependencies;
    if research != [] {
      var n := |research| - 1;
      var before := research[..n];
      GraphHolds(before, a);
      if Strip(research[n].id) == a {
        assert LastWith(research, a, n);
      } else {
        assert forall k :: 0 <= k < n ==> before[k] == research[k];
        if a in GraphOf(before) {
          var k :| LastWith(before, a, k) && GraphOf(before)[a] == Dependencies(before[k]);
          assert LastWith(research, a, k);
        }
      }
    }
  }

  lemma LastIsUnique(research: seq<ResearchItem>, a: string, j: int, k: int)
    requires LastWith(research, a, j) && LastWith(research, a, k)
    ensures j == k
  {
  }

  /** The edges of the graph are exactly the dependencies between the items of the pack. */
  lemma EdgeIsDependency(research: seq<ResearchItem>, a: string, b: string)
    ensures Edge(GraphOf(research), a, b) <==> Depends(research, a, b)
  {
    GraphHolds(research, a);
    GraphHolds(research, b);
    if Known(research, a) {
      hide GraphOf, Known, Names, Dependencies, LastWith;
      var k :| LastWith(research, a, k) && GraphOf(research)[a] == Dependencies(research[k]);
      DependenciesAreNamed(research[k], b);
      forall j | LastWith(research, a, j)
        ensures j == k
      {
        LastIsUnique(research, a, j, k);
      }
    } else {
      NotKnown(research, a, b);
    }
  }

  lemma NotKnown(research: seq<ResearchItem>, a: string, b: string)
    requires !Known(research, a)
    ensures !Depends(research, a, b)
  {
    hide Names;
  }

  lemma CycleIsPackCycle(research: seq<ResearchItem>, cycle: seq<string>)
    ensures IsCycle(GraphOf(research), cycle) <==> IsPackCycle(research, cycle)
  {
    hide Edge, Depends;
    forall a, b
      ensures Edge(GraphOf(research), a, b) <==> Depends(research, a, b)
    {
      EdgeIsDependency(research, a, b);
    }
  }

  lemma CyclesOfThePack(research: seq<ResearchItem>, message: string)
    ensures HasCycle(GraphOf(research)) <==> HasPackCycle(research)
    ensures ReportsCycle(GraphOf(research), message) <==> SpellsCycle(research, message)
  {
    hide IsCycle, IsPackCycle;
    forall cycle
      ensures IsCycle(GraphOf(research), cycle) <==> IsPackCycle(research, cycle)
    {
      CycleIsPackCycle(research, cycle);
    }
  }

  // ---------------------------------------------------------------- why an empty report means no cycle

  /** Every dependency of a finished node was finished before it. */
  ghost predicate Topological(graph: Graph, finished: seq<string>) {
    forall i, dep :: 0 <= i < |finished| && Edge(graph, finished[i], dep) ==> dep in finished[..i]
  }

  lemma {:induction false} DescendPath(graph: Graph, finished: seq<string>, path: seq<string>, i: nat, k: nat)
    requires Topological(graph, finished) && IsPath(graph, path)
    requires i < |finished| && 0 < k < |path| && path[0] == finished[i]
    ensures path[k] in finished[..i]
    decreases k
  {
    if k == 1 {
      assert Edge(graph, path[0], path[1]);
    } else {
      DescendPath(graph, finished, path, i, k - 1);
      var j :| 0 <= j < i && finished[j] == path[k - 1];
      assert Edge(graph, path[k - 1], path[k - 1 + 1]);
      assert path[k] in finished[..j];
      assert finished[..j] <= finished[..i];
    }
  }

  /** list.index: the first position of x. */
  function IndexOf(s: seq<string>, x: string): (i: nat)
    requires x in s
    ensures i < |s| && s[i] == x && x !in s[..i]
  {
    if s[0] == x then 0
    else
      assert s == [s[0]] + s[1..];
      var i := IndexOf(s[1..], x);
      assert s[..i + 1] == [s[0]] + s[1..][..i];
      i + 1
  }

  /** A graph whose nodes can all be finished in dependency order has no cycle. */
  lemma TopologicalExcludesCycles(graph: Graph, finished: seq<string>)
    requires Topological(graph, finished)
    requires forall node :: node in graph ==> node in finished
    ensures !HasCycle(graph)
  {
    forall cycle | IsCycle(graph, cycle)
      ensures false
    {
      assert Edge(graph, cycle[0], cycle[0 + 1]);
      var i := IndexOf(finished, cycle[0]);
      DescendPath(graph, finished, cycle, i, |cycle| - 1);
    }
  }

  // ---------------------------------------------------------------- the depth-first search

  /** The state of the search: the stack is a path, visited nodes are on it or finished, all reports are
  genuine, and as long as there is no report the finished nodes are in dependency order. */
  ghost predicate Consistent(graph: Graph, stack: seq<string>, visited: set<string>, cycles: set<string>,
                             finished: seq<string>) {
    && IsPath(graph, stack)
    && (forall node :: node in stack ==> node in graph)
    && (forall node :: node in visited <==> node in stack || node in finished)
    && (forall message :: message in cycles ==> ReportsCycle(graph, message))
    && (cycles == {} ==> Topological(graph, finished))
  }

  lemma EnterNode(graph: Graph, stack: seq<string>, visited: set<string>, cycles: set<string>, finished: seq<string>,
                  node: string)
    requires Consistent(graph, stack, visited, cycles, finished) && node in graph
    requires stack != [] ==> Edge(graph, stack[|stack| - 1], node)
    ensures Consistent(graph, stack + [node], visited + {node}, cycles, finished)
  {
    ExtendPath(graph, stack, node);
    hide IsPath, ReportsCycle, Topological;
  }

  lemma LeaveNode(graph: Graph, stack: seq<string>, visited: set<string>, cycles: set<string>, finished: seq<string>,
                  node: string)
    requires Consistent(graph, stack + [node], visited, cycles, finished)
    requires node in graph && (cycles == {} ==> FirstFinished(graph, node, |graph[node]|, finished))
    ensures Consistent(graph, stack, visited, cycles, finished + [node])
  {
    assert node in stack + [node];
    PrefixPath(graph, stack, node);
    if cycles == {} {
      FinishNode(graph, finished, node);
    }
    assert forall x :: x in stack ==> x in stack + [node];
    hide IsPath, ReportsCycle, Topological;
  }

  /** The first `count` dependencies of the node, as far as they are known, are finished. */
  ghost predicate FirstFinished(graph: Graph, node: string, count: int, finished: seq<string>) {
    && node in graph && count <= |graph[node]|
    && forall k :: 0 <= k < count && graph[node][k] in graph ==> graph[node][k] in finished
  }

  lemma NoneFinished(graph: Graph, node: string, finished: seq<string>)
    requires node in graph
    ensures FirstFinished(graph, node, 0, finished)
  {
  }

  lemma OneMoreFinished(graph: Graph, node: string, count: nat, before: seq<string>, after: seq<string>)
    requires FirstFinished(graph, node, count, before) && before <= after && count < |graph[node]|
    requires graph[node][count] in graph ==> graph[node][count] in after
    ensures FirstFinished(graph, node, count + 1, after)
  {
    assert forall x :: x in before ==> x in after;
  }

  class CycleSearch {
    const graph: Graph
    var visited: set<string>
    var activeStack: seq<string>
    var cycles: set<string>
    ghost var finished: seq<string>

    ghost predicate Valid()
      reads this
    {
      Consistent(graph, activeStack, visited, cycles, finished)
    }

    constructor (graph: Graph)
      ensures Valid() && this.graph == graph
      ensures visited == {} && activeStack == [] && cycles == {} && finished == []
    {
      this.graph := graph;
      visited := {};
      activeStack := [];
      cycles := {};
      finished := [];
    }

    method Visit(node: string)
      requires Valid() && node in graph
      requires activeStack != [] ==> Edge(graph, activeStack[|activeStack| - 1], node)
      modifies this
      ensures Valid() && activeStack == old(activeStack)
      ensures old(visited) <= visited && old(cycles) <= cycles && old(finished) <= finished
      ensures cycles == {} ==> node in finished
      decreases |graph.Keys - visited|, 1
    {
      hide Topological, IsPath, ReportsCycle, Message;
      if node in activeStack {
        var startIndex := IndexOf(activeStack, node);
        var cycle := activeStack[startIndex..] + [node];
        ClosingCycle(graph, activeStack, startIndex, node);
        cycles := cycles + {Message(cycle)};
        return;
      }
      if node in visited {
        return;
      }
      Explore(node);
    }

    /** The part of the closure that visits a node for the first time. */
    method Explore(node: string)
      requires Valid() && node in graph && node !in visited
      requires activeStack != [] ==> Edge(graph, activeStack[|activeStack| - 1], node)
      modifies this
      ensures Valid() && activeStack == old(activeStack)
      ensures old(visited) <= visited && old(cycles) <= cycles && old(finished) <= finished
      ensures cycles == {} ==> node in finished
      decreases |graph.Keys - visited|, 0
    {
      hide Consistent, FirstFinished, Edge;
      EnterNode(graph, activeStack, visited, cycles, finished, node);
      visited := visited + {node};
      activeStack := activeStack + [node];
      ghost var stack, seen := activeStack, visited;
      var dependencies := graph[node];
      NoneFinished(graph, node, finished);
      for i := 0 to |dependencies|
        invariant Valid() && activeStack == stack
        invariant seen <= visited && old(cycles) <= cycles && old(finished) <= finished
        invariant cycles == {} ==> FirstFinished(graph, node, i, finished)
      {
        ghost var before := finished;
        if dependencies[i] in graph {
          FewerLeft(graph.Keys, old(visited), visited, node);
          EdgeTo(graph, node, i);
          Visit(dependencies[i]);
        }
        if cycles == {} {
          OneMoreFinished(graph, node, i, before, finished);
        }
      }
      LeaveNode(graph, old(activeStack), visited, cycles, finished, node);
      finished := finished + [node];
      activeStack := activeStack[..|activeStack| - 1];
      assert activeStack == old(activeStack);
    }
  }

  lemma EdgeTo(graph: Graph, node: string, i: nat)
    requires node in graph && i < |graph[node]| && graph[node][i] in graph
    ensures Edge(graph, node, graph[node][i])
  {
  }

  lemma FewerLeft(all: set<string>, before: set<string>, after: set<string>, node: string)
    requires node in all && node !in before && before + {node} <= after
    ensures |all - after| < |all - before|
  {
    assert all - after <= (all - before) - {node};
    SubsetSize(all - after, (all - before) - {node});
  }

  lemma ExtendPath(graph: Graph, path: seq<string>, node: string)
    requires IsPath(graph, path)
    requires path != [] ==> Edge(graph, path[|path| - 1], node)
    ensures IsPath(graph, path + [node])
  {
    var longer := path + [node];
    forall i | 0 <= i < |longer| - 1
      ensures Edge(graph, longer[i], longer[i + 1])
    {
      if i < |path| - 1 {
        assert Edge(graph, path[i], path[i + 1]);
      }
    }
  }

  lemma PrefixPath(graph: Graph, path: seq<string>, node: string)
    requires IsPath(graph, path + [node])
    ensures (path + [node])[..|path|] == path && IsPath(graph, path)
  {
    var longer := path + [node];
    forall i | 0 <= i < |path| - 1
      ensures Edge(graph, path[i], path[i + 1])
    {
      assert Edge(graph, longer[i], longer[i + 1]);
    }
  }

  /** The stack from the repeated node on, closed by that node, is a cycle of the graph. */
  lemma ClosingCycle(graph: Graph, stack: seq<string>, start: nat, node: string)
    requires IsPath(graph, stack) && start < |stack| && stack[start] == node
    requires Edge(graph, stack[|stack| - 1], node)
    ensures ReportsCycle(graph, Message(stack[start..] + [node]))
  {
    var tail := stack[start..];
    forall i | 0 <= i < |tail| - 1
      ensures Edge(graph, tail[i], tail[i + 1])
    {
      assert Edge(graph, stack[start + i], stack[start + i + 1]);
    }
    ExtendPath(graph, tail, node);
    assert IsCycle(graph, tail + [node]);
  }

  lemma FinishNode(graph: Graph, finished: seq<string>, node: string)
    requires Topological(graph, finished) && node in graph && FirstFinished(graph, node, |graph[node]|, finished)
    ensures Topological(graph, finished + [node])
  {
    var longer := finished + [node];
    forall i, dep | 0 <= i < |longer| && Edge(graph, longer[i], dep)
      ensures dep in longer[..i]
    {
      if i < |finished| {
        assert longer[..i] == finished[..i];
        assert longer[i] == finished[i];
      } else {
        assert longer[..i] == finished;
      }
    }
  }

  method BuildGraph(research: seq<ResearchItem>) returns (graph: Graph)
    ensures graph == GraphOf(research)
  {
    graph := map[];
    for i := 0 to |research|
      invariant graph == GraphOf(research[..i])
    {
      assert research[..i + 1][..i] == research[..i];
      var item := research[i];
      var researchId := Strip(item.id);
      if researchId != [] {
        graph := graph[researchId := Dependencies(item)];
      }
    }
    assert research[..|research|] == research;
  }

  /** check_circular_dependencies: terminates on every pack, reports only genuine cycles, and reports nothing
  exactly when there is none. */
  method CheckCircularDependencies(research: seq<ResearchItem>) returns (errors: seq<string>)
    ensures errors == [] <==> !HasPackCycle(research)
    ensures forall message :: message in errors ==> SpellsCycle(research, message)
    ensures SortedBy(TextLe, errors) && Distinct(errors)
  {
    hide GraphOf, HasPackCycle, SpellsCycle;
    var graph := BuildGraph(research);
    var search := new CycleSearch(graph);
    var remaining := graph.Keys;
    while remaining != {}
      invariant search.Valid() && search.graph == graph && search.activeStack == []
      invariant remaining <= graph.Keys
      invariant search.cycles == {} ==> forall node :: node in graph && node !in remaining ==> node in search.finished
      decreases |remaining|
    {
      var node :| node in remaining;
      ghost var finishedBefore := search.finished;
      search.Visit(node);
      assert forall x :: x in finishedBefore ==> x in search.finished;
      remaining := remaining - {node};
    }
    TextOrder();
    errors := ArrangeSet(TextLe, search.cycles);
    Arranged(TextLe, search.cycles);
    ReportsAreRight(research, search.cycles, search.finished);
  }

  /** What the search has found, read on the pack. */
  lemma ReportsAreRight(research: seq<ResearchItem>, cycles: set<string>, finished: seq<string>)
    requires forall message :: message in cycles ==> ReportsCycle(GraphOf(research), message)
    requires cycles == {} ==> Topological(GraphOf(research), finished)
    requires cycles == {} ==> forall node :: node in GraphOf(research) ==> node in finished
    ensures cycles == {} <==> !HasPackCycle(research)
    ensures forall message :: message in cycles ==> SpellsCycle(research, message)
  {
    CyclesOfThePack(research, "");
    forall message
      ensures ReportsCycle(GraphOf(research), message) <==> SpellsCycle(research, message)
    {
      CyclesOfThePack(research, message);
    }
    if cycles == {} {
      TopologicalExcludesCycles(GraphOf(research), finished);
    } else {
      var message :| message in cycles;
      assert ReportsCycle(GraphOf(research), message);
    }
  }
}
