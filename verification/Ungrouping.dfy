/** Ungrouping that deletes the children: exactly when it leaves a well-formed document. */
module Ungrouping {
  import opened Outcomes
  import opened Digraphs
  import opened Documents
  import opened Schemas
  import opened Operations
  import opened WellFormed

  ghost predicate EdgesAvoid(edges: map<string, Edge>, s: set<string>) {
    forall k :: k in edges ==> edges[k].from.nodeId !in s && edges[k].to.nodeId !in s
  }

  ghost predicate ParentsAvoid(nodes: map<string, Node>, s: set<string>) {
    forall k {:trigger nodes[k].parentId} :: k in nodes && k !in s ==> nodes[k].parentId !in s
  }

  /** No edge touches a child of the group, and no node that stays has a child of the group as its own parent. */
  ghost predicate ChildrenAreLeaves(d: Doc, group: string) {
    EdgesAvoid(d.edges, ChildIds(d.nodes, group)) && ParentsAvoid(d.nodes, ChildIds(d.nodes, group))
  }

  /** Groups have no edges, so deleting the edges of the group deletes none. */
  lemma GroupHasNoEdges(nodes: map<string, Node>, edges: map<string, Edge>, group: string)
    requires EdgesOk(nodes, edges) && group in nodes && nodes[group].ty == "group"
    ensures WithoutIncident(edges, group) == edges
  {
    forall k | k in edges
      ensures !Incident(edges[k], group)
    {
      assert EdgeOk(nodes, edges[k]);
    }
  }

  ghost function Survivors(nodes: map<string, Node>, group: string): map<string, Node> {
    nodes - ChildIds(nodes, group) - {group}
  }

  lemma SurvivorsKeep(table: Table, nodes: map<string, Node>, group: string)
    requires NodesOk(table, nodes) && Acyclic(ParentGraph(nodes))
    ensures NodesOk(table, Survivors(nodes, group)) && Acyclic(ParentGraph(Survivors(nodes, group)))
    ensures SameShape(nodes, Survivors(nodes, group)) && |Survivors(nodes, group)| <= |nodes|
  {
    SubgraphAcyclic(ParentGraph(Survivors(nodes, group)), ParentGraph(nodes));
    CardinalityMono(Survivors(nodes, group).Keys, nodes.Keys);
  }

  lemma SurvivorsParents(nodes: map<string, Node>, group: string)
    requires ParentsOk(nodes) && Acyclic(ParentGraph(nodes)) && group in nodes && group != "" && "" !in nodes
    ensures ParentsOk(Survivors(nodes, group)) <==> ParentsAvoid(nodes, ChildIds(nodes, group))
  {
    var rest := Survivors(nodes, group);
    GroupParentStays(nodes, group);
    if ParentsAvoid(nodes, ChildIds(nodes, group)) {
      forall k | k in rest
        ensures ParentOk(rest, rest[k].parentId)
      {
        assert ParentOk(nodes, nodes[k].parentId);
      }
    } else {
      var k :| k in nodes && k !in ChildIds(nodes, group) && nodes[k].parentId in ChildIds(nodes, group);
      assert k in rest && nodes[k].parentId != "";
      assert !ParentOk(rest, rest[k].parentId);
    }
  }

  lemma GroupParentStays(nodes: map<string, Node>, group: string)
    requires Acyclic(ParentGraph(nodes)) && group in nodes && group != "" && "" !in nodes
    ensures nodes[group].parentId !in ChildIds(nodes, group) && group !in ChildIds(nodes, group)
  {
    var up := nodes[group].parentId;
    assert up != "" ==> (group, up) in ParentGraph(nodes);
    ReachesSelf(ParentGraph(nodes), group);
    if up in ChildIds(nodes, group) {
      ReachesArc(ParentGraph(nodes), up, group);
    }
  }

  lemma SurvivorsEdges(nodes: map<string, Node>, edges: map<string, Edge>, group: string)
    requires EdgesOk(nodes, edges) && SingleInputs(nodes, edges) && group in nodes && nodes[group].ty == "group"
    ensures (EdgesOk(Survivors(nodes, group), edges) && SingleInputs(Survivors(nodes, group), edges))
       <==> EdgesAvoid(edges, ChildIds(nodes, group))
  {
    var rest := Survivors(nodes, group);
    if EdgesAvoid(edges, ChildIds(nodes, group)) {
      forall k | k in edges
        ensures edges[k].from.nodeId in rest && edges[k].to.nodeId in rest
      {
        assert EdgeOk(nodes, edges[k]);
      }
      EdgesSurvive(nodes, rest, edges);
    } else {
      var k :| k in edges && (edges[k].from.nodeId in ChildIds(nodes, group) || edges[k].to.nodeId in ChildIds(nodes, group));
      assert !EdgeOk(rest, edges[k]);
    }
  }

  /** A child-deleting ungroup keeps the document well formed exactly when its children are leaves. */
  lemma ChildDeletingUngroupExact(table: Table, d: Doc, group: string)
    requires WF(table, d) && ApplyUngroup(d, group, false).Ok?
    ensures WF(table, ApplyUngroup(d, group, false).value) <==> ChildrenAreLeaves(d, group)
  {
    hide NodesOk, EdgesOk, SingleInputs, ParentsOk, Acyclic, WithoutIncident, ParentGraph, FlowGraph, EdgesAvoid, ParentsAvoid,
      ChildIds, ValidId, RectOk;
    NoEmptyId(table, d.nodes);
    GroupHasNoEdges(d.nodes, d.edges, group);
    SurvivorsKeep(table, d.nodes, group);
    SurvivorsParents(d.nodes, group);
    SurvivorsEdges(d.nodes, d.edges, group);
    assert ApplyUngroup(d, group, false).value == d.(nodes := Survivors(d.nodes, group), edges := d.edges);
  }

  // ---------------------------------------------------------------- a document it breaks

  const PlainPort := Port("p", "", "text", true, false, 0)
  const PlainSchema := Schema(Ports([PlainPort], [PlainPort]), {}, spec => Accepted)
  const SampleTable: Table := map["note" := PlainSchema, "group" := PlainSchema]

  function SampleNode(id: string, ty: string, parent: string): Node {
    Node(id, ty, "", Rect(0.0, 0.0, 100.0, 100.0), 0, parent, PlainSchema.ports, map[], "idle", None, None, false, map[])
  }

  const SampleEdge := Edge("e", Endpoint("a", "p"), Endpoint("b", "p"), "text", "u", 1)

  /** A note feeding a note that sits in a group. */
  const SampleDoc := EmptyDoc.(
    nodes := map["a" := SampleNode("a", "note", ""), "b" := SampleNode("b", "note", "g"), "g" := SampleNode("g", "group", "")],
    edges := map["e" := SampleEdge])

  lemma SampleNodeOk(id: string, ty: string, parent: string)
    requires ty == "note" || ty == "group"
    ensures NodeOk(SampleTable, SampleNode(id, ty, parent))
  {
  }

  lemma SampleNodesOk()
    ensures NodesOk(SampleTable, SampleDoc.nodes) && ParentsOk(SampleDoc.nodes)
  {
    SampleNodeOk("a", "note", "");
    SampleNodeOk("b", "note", "g");
    SampleNodeOk("g", "group", "");
    hide NodeOk;
  }

  lemma SampleEdgesOk()
    ensures EdgesOk(SampleDoc.nodes, SampleDoc.edges) && SingleInputs(SampleDoc.nodes, SampleDoc.edges)
  {
    assert FindPort([PlainPort], "p") == Some(PlainPort);
  }

  lemma SampleAcyclic()
    ensures Acyclic(FlowGraph(SampleDoc.edges)) && Acyclic(ParentGraph(SampleDoc.nodes))
  {
    RankMeansAcyclic(FlowGraph(SampleDoc.edges), map["a" := 0, "b" := 1]);
    RankMeansAcyclic(ParentGraph(SampleDoc.nodes), map["b" := 0, "g" := 1]);
  }

  lemma SampleIsWellFormed()
    ensures WF(SampleTable, SampleDoc)
  {
    hide NodesOk, EdgesOk, SingleInputs, ParentsOk, Acyclic, ParentGraph, FlowGraph;
    SampleNodesOk();
    SampleEdgesOk();
    SampleAcyclic();
    assert SampleDoc.nodes.Keys == {"a", "b", "g"};
    assert SampleDoc.edges.Keys == {"e"};
  }

  /** The exception is real: ungrouping with deletion leaves an edge without its target. */
  lemma ChildDeletingUngroupBreaks()
    ensures WF(SampleTable, SampleDoc) && ApplyUngroup(SampleDoc, "g", false).Ok?
    ensures !WF(SampleTable, ApplyUngroup(SampleDoc, "g", false).value)
  {
    hide WF;
    SampleIsWellFormed();
    assert "b" in ChildIds(SampleDoc.nodes, "g");
    assert "e" in SampleDoc.edges && SampleDoc.edges["e"].to.nodeId == "b";
    ChildDeletingUngroupExact(SampleTable, SampleDoc, "g");
  }
}
