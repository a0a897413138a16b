/** The two structural searches an operation makes before it is accepted. */
module CycleCheck {
  import opened Outcomes
  import opened Digraphs
  import opened Documents
  import opened Operations
  import opened WellFormed

  /** Every step out of a node of `done` ends in `s`. */
  ghost predicate StepsInto(g: Digraph<string>, done: set<string>, s: set<string>) {
    forall a, b :: (a, b) in g && a in done ==> b in s
  }

  /** Whether a new edge from `from` to `to` would close a cycle, by searching upstream from `from`. */
  method WouldCycle(nodes: map<string, Node>, edges: map<string, Edge>, from: string, to: string) returns (found: bool)
    ensures found <==> Reaches(SearchGraph(nodes, edges), from, to)
  {
    ghost var g := SearchGraph(nodes, edges);
    ghost var all := {from} + set arc | arc in g :: arc.1;
    assert StepsInto(g, all, all);
    var seen: set<string>;
    found, seen := Walk(nodes, edges, g, all, from, to, {});
    if !found && Reaches(g, from, to) {
      ClosedContains(g, seen, from, to);
    }
  }

  /** Depth-first search from `cur`; `seen` is the set of visited nodes, handed in and out. */
  method Walk(nodes: map<string, Node>, edges: map<string, Edge>, ghost g: Digraph<string>, ghost all: set<string>,
              cur: string, to: string, seen: set<string>)
    returns (found: bool, after: set<string>)
    requires g == SearchGraph(nodes, edges) && StepsInto(g, all, all)
    requires cur in all && seen <= all && to !in seen
    ensures seen <= after <= all
    ensures found ==> Reaches(g, cur, to)
    ensures !found ==> cur in after && to !in after && StepsInto(g, after - seen, after)
    decreases all - seen, 1
  {
    if cur == to {
      ReachesSelf(g, cur);
      return true, seen;
    }
    if cur in seen {
      return false, seen;
    }
    after := seen + {cur};
    var ups := UpstreamOf(edges, cur);
    var i := 0;
    while i < |ups|
      invariant 0 <= i <= |ups|
      invariant seen + {cur} <= after <= all && to !in after
      invariant forall j :: 0 <= j < i ==> ups[j].from.nodeId in after
      invariant StepsInto(g, after - seen - {cur}, after)
    {
      StepUp(nodes, edges, cur, i);
      found, after := WalkStep(nodes, edges, g, all, cur, ups[i].from.nodeId, to, seen, after);
      if found {
        return;
      }
      i := i + 1;
    }
    if cur in nodes && nodes[cur].parentId != "" {
      StepToParent(nodes, edges, cur);
      found, after := WalkStep(nodes, edges, g, all, cur, nodes[cur].parentId, to, seen, after);
      if found {
        return;
      }
    }
    SearchSteps(nodes, edges, cur, ups, after);
    found := false;
  }

  /** One step from `cur` to `up`, taken while `cur` is being explored. */
  method WalkStep(nodes: map<string, Node>, edges: map<string, Edge>, ghost g: Digraph<string>, ghost all: set<string>,
                  cur: string, up: string, to: string, ghost before: set<string>, seen: set<string>)
    returns (found: bool, after: set<string>)
    requires g == SearchGraph(nodes, edges) && StepsInto(g, all, all)
    requires cur in all && cur !in before && (cur, up) in g
    requires before + {cur} <= seen <= all && to !in seen
    requires StepsInto(g, seen - before - {cur}, seen)
    ensures seen <= after <= all
    ensures found ==> Reaches(g, cur, to)
    ensures !found ==> up in after && to !in after && StepsInto(g, after - before - {cur}, after)
    decreases all - seen, 2
  {
    found, after := Walk(nodes, edges, g, all, up, to, seen);
    if found {
      StepThenReach(g, cur, up, to);
    }
  }

  lemma StepUp(nodes: map<string, Node>, edges: map<string, Edge>, cur: string, i: nat)
    requires i < |UpstreamOf(edges, cur)|
    ensures (cur, UpstreamOf(edges, cur)[i].from.nodeId) in SearchGraph(nodes, edges)
  {
    var k := UpstreamIsIncoming(edges, cur, i);
    assert (edges[k].from.nodeId, cur) in FlowGraph(edges);
  }

  lemma StepToParent(nodes: map<string, Node>, edges: map<string, Edge>, cur: string)
    requires cur in nodes && nodes[cur].parentId != ""
    ensures (cur, nodes[cur].parentId) in SearchGraph(nodes, edges)
  {
  }

  lemma StepThenReach(g: Digraph<string>, a: string, b: string, c: string)
    requires (a, b) in g && Reaches(g, b, c)
    ensures Reaches(g, a, c)
  {
    ReachesArc(g, a, b);
    ReachesTrans(g, a, b, c);
  }

  /** The steps out of a node are its incoming edges and its parent. */
  lemma SearchSteps(nodes: map<string, Node>, edges: map<string, Edge>, cur: string, ups: seq<Edge>, s: set<string>)
    requires ups == UpstreamOf(edges, cur)
    requires forall j :: 0 <= j < |ups| ==> ups[j].from.nodeId in s
    requires cur in nodes && nodes[cur].parentId != "" ==> nodes[cur].parentId in s
    ensures StepsInto(SearchGraph(nodes, edges), {cur}, s)
  {
    forall y | (cur, y) in SearchGraph(nodes, edges)
      ensures y in s
    {
      if (cur, y) in Reverse(FlowGraph(edges)) {
        var k :| k in edges && edges[k].from.nodeId == y && edges[k].to.nodeId == cur;
        var _ := IncomingIsUpstream(edges, cur, k);
      }
    }
  }

  /** The parent check of the operations: the loop over at most eight ancestors. */
  method RunCheckParent(nodes: map<string, Node>, node: string, parent: string) returns (r: Check)
    ensures r == CheckParent(nodes, node, parent)
  {
    if parent == "" {
      return Pass;
    }
    if node == parent {
      return Fail(InvalidSpec);
    }
    if parent !in nodes {
      return Fail(NotFound);
    }
    if nodes[parent].ty != "group" {
      return Fail(InvalidSpec);
    }
    var depth := 0;
    var cur := parent;
    while cur != ""
      invariant 0 <= depth <= MaxGroupDepth
      invariant ChainAvoids(nodes, parent, node, MaxGroupDepth) == ChainAvoids(nodes, cur, node, MaxGroupDepth - depth)
      decreases MaxGroupDepth - depth
    {
      if depth >= MaxGroupDepth {
        return Fail(InvalidSpec);
      }
      if cur == node {
        return Fail(InvalidSpec);
      }
      if cur !in nodes {
        break;
      }
      depth := depth + 1;
      cur := nodes[cur].parentId;
    }
    return Pass;
  }

  lemma FlowAvoidsGroups(nodes: map<string, Node>, edges: map<string, Edge>, a: string, b: string)
    requires EdgesOk(nodes, edges) && (a, b) in FlowGraph(edges)
    ensures a in nodes && b in nodes && nodes[a].ty != "group" && nodes[b].ty != "group"
  {
  }

  /** Parents are groups and groups have no edges, so once the search enters a group it stays among groups. */
  lemma GroupsAreClosed(nodes: map<string, Node>, edges: map<string, Edge>, groups: set<string>)
    requires ParentsOk(nodes) && EdgesOk(nodes, edges)
    requires groups == set k | k in nodes && nodes[k].ty == "group"
    ensures ClosedUnder(SearchGraph(nodes, edges), groups)
  {
    forall a, b | (a, b) in SearchGraph(nodes, edges) && a in groups
      ensures b in groups
    {
      if (a, b) in Reverse(FlowGraph(edges)) {
        FlowAvoidsGroups(nodes, edges, b, a);
      } else {
        assert ParentOk(nodes, nodes[a].parentId);
      }
    }
  }

  lemma {:induction false} SearchPathIsFlowPath(nodes: map<string, Node>, edges: map<string, Edge>, p: seq<string>)
    requires ParentsOk(nodes) && EdgesOk(nodes, edges)
    requires IsPath(SearchGraph(nodes, edges), p)
    requires p[|p| - 1] in nodes && nodes[p[|p| - 1]].ty != "group"
    ensures Reaches(FlowGraph(edges), p[|p| - 1], p[0])
    decreases |p|
  {
    var g := SearchGraph(nodes, edges);
    var last := p[|p| - 1];
    if |p| == 1 {
      ReachesSelf(FlowGraph(edges), last);
    } else {
      var q := p[1..];
      assert (p[0], p[1]) in g;
      forall i | 0 < i < |q|
        ensures (q[i - 1], q[i]) in g
      {
        assert (p[i], p[i + 1]) in g;
      }
      SearchPathIsFlowPath(nodes, edges, q);
      if (p[0], p[1]) in Reverse(FlowGraph(edges)) {
        ReachesArc(FlowGraph(edges), p[1], p[0]);
        ReachesTrans(FlowGraph(edges), last, p[1], p[0]);
      } else {
        var groups := set k | k in nodes && nodes[k].ty == "group";
        assert p[1] in groups by {
          assert nodes[p[0]].parentId == p[1];
          assert ParentOk(nodes, nodes[p[0]].parentId);
        }
        GroupsAreClosed(nodes, edges, groups);
        assert PathBetween(g, q, p[1], last);
        ClosedContains(g, groups, p[1], last);
      }
    }
  }

  /**
   * On a well-formed document the search answers exactly whether the new edge would close a
   * directed cycle of edges; its steps into groups never change the answer.
   */
  lemma SearchFindsExactlyCycles(nodes: map<string, Node>, edges: map<string, Edge>, from: string, to: string)
    requires ParentsOk(nodes) && EdgesOk(nodes, edges) && Acyclic(FlowGraph(edges))
    requires to in nodes && nodes[to].ty != "group"
    ensures Reaches(SearchGraph(nodes, edges), from, to) <==> Reaches(FlowGraph(edges), to, from)
    ensures Reaches(SearchGraph(nodes, edges), from, to) <==> !Acyclic(FlowGraph(edges) + {(from, to)})
  {
    if Reaches(SearchGraph(nodes, edges), from, to) {
      var p :| PathBetween(SearchGraph(nodes, edges), p, from, to);
      SearchPathIsFlowPath(nodes, edges, p);
    } else {
      NoSearchPathNoFlowPath(nodes, edges, from, to);
    }
    AddArcAcyclic(FlowGraph(edges), from, to);
  }
}
