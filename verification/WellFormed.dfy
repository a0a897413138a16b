/** The structural invariant of a document, and the proof that every operation but one keeps it. */
module WellFormed {
  import opened Outcomes
  import opened Digraphs
  import opened Documents
  import opened Schemas
  import opened Operations

  predicate NodeOk(table: Table, n: Node) {
    && RectOk(n.rect)
    && |n.title| <= MaxTitleLen
    && SchemaFor(table, n.ty).Some?
    && n.ports == SchemaFor(table, n.ty).value.ports
    && !ValidateSpec(table, n.ty, n.spec).Rejected?
    && ValidNodeState(n.state)
  }

  predicate ParentOk(nodes: map<string, Node>, parent: string) {
    parent == "" || (parent in nodes && nodes[parent].ty == "group")
  }

  predicate NodesOk(table: Table, nodes: map<string, Node>) {
    forall k :: k in nodes ==> ValidId(k) && nodes[k].id == k && NodeOk(table, nodes[k])
  }

  /** Every parent is an existing group. */
  predicate ParentsOk(nodes: map<string, Node>) {
    forall k {:trigger nodes[k].parentId} :: k in nodes ==> ParentOk(nodes, nodes[k].parentId)
  }

  predicate Typed(nodes: map<string, Node>, e: Edge)
    requires e.from.nodeId in nodes && e.to.nodeId in nodes
  {
    var out := FindPort(nodes[e.from.nodeId].ports.outputs, e.from.portId);
    var inp := FindPort(nodes[e.to.nodeId].ports.inputs, e.to.portId);
    out.Some? && inp.Some? && e.kind == out.value.kind && e.kind == inp.value.kind && ValidResourceKind(e.kind)
  }

  predicate EdgeOk(nodes: map<string, Node>, e: Edge) {
    && e.from.nodeId in nodes && e.to.nodeId in nodes
    && e.from.nodeId != e.to.nodeId
    && nodes[e.from.nodeId].ty != "group" && nodes[e.to.nodeId].ty != "group"
    && Typed(nodes, e)
    && e.createdAt != 0 && e.createdBy != ""
  }

  predicate EdgesOk(nodes: map<string, Node>, edges: map<string, Edge>) {
    forall k :: k in edges ==> ValidId(k) && edges[k].id == k && EdgeOk(nodes, edges[k])
  }

  predicate MultiInput(nodes: map<string, Node>, to: Endpoint) {
    to.nodeId in nodes ==>
      var p := FindPort(nodes[to.nodeId].ports.inputs, to.portId);
      p.Some? ==> p.value.multiple
  }

  /** A single-input port holds at most one edge. */
  predicate SingleInputs(nodes: map<string, Node>, edges: map<string, Edge>) {
    forall j, k :: j in edges && k in edges && j != k && edges[j].to == edges[k].to ==> MultiInput(nodes, edges[k].to)
  }

  ghost predicate WF(table: Table, d: Doc) {
    && NodesOk(table, d.nodes)
    && ParentsOk(d.nodes)
    && EdgesOk(d.nodes, d.edges)
    && SingleInputs(d.nodes, d.edges)
    && Acyclic(FlowGraph(d.edges))
    && Acyclic(ParentGraph(d.nodes))
    && ViewportOk(d.viewport)
    && BackgroundOk(d.settings.background)
    && |d.nodes| <= MaxNodesPerCanvas
    && |d.edges| <= MaxEdgesPerCanvas
  }

  /** The service refuses an anonymous write, and the clock is past the zero time. */
  predicate StampOk(who: Stamp) {
    who.actor != "" && who.now != 0
  }

  lemma EmptyDocIsWellFormed(table: Table)
    ensures WF(table, EmptyDoc)
  {
  }

  // ---------------------------------------------------------------- structure shared by node maps

  /** `after` keeps the type and ports of every node of `before` it still has. */
  predicate SameShape(before: map<string, Node>, after: map<string, Node>) {
    forall k :: k in after && k in before ==> after[k].ty == before[k].ty && after[k].ports == before[k].ports
  }

  lemma EdgesSurvive(before: map<string, Node>, after: map<string, Node>, edges: map<string, Edge>)
    requires EdgesOk(before, edges) && SingleInputs(before, edges)
    requires SameShape(before, after)
    requires forall k :: k in edges ==> edges[k].from.nodeId in after && edges[k].to.nodeId in after
    ensures EdgesOk(after, edges) && SingleInputs(after, edges)
  {
  }

  lemma FewerEdges(nodes: map<string, Node>, before: map<string, Edge>, after: map<string, Edge>)
    requires after.Keys <= before.Keys && forall k :: k in after ==> after[k] == before[k]
    ensures FlowGraph(after) <= FlowGraph(before)
    ensures |after| <= |before|
    ensures EdgesOk(nodes, before) ==> EdgesOk(nodes, after)
    ensures SingleInputs(nodes, before) ==> SingleInputs(nodes, after)
  {
    CardinalityMono(after.Keys, before.Keys);
  }

  lemma {:induction false} CardinalityMono<T>(a: set<T>, b: set<T>)
    requires a <= b
    ensures |a| <= |b|
  {
    if a != {} {
      var x :| x in a;
      CardinalityMono(a - {x}, b - {x});
    }
  }

  // ---------------------------------------------------------------- parents

  /** A parent check that passes rules out a parent path back to the node. */
  lemma {:induction false} ChainBlocksPath(nodes: map<string, Node>, cur: string, node: string, fuel: nat)
    requires ChainAvoids(nodes, cur, node, fuel) && node != "" && "" !in nodes
    ensures !Reaches(ParentGraph(nodes), cur, node)
    decreases fuel
  {
    if Reaches(ParentGraph(nodes), cur, node) {
      var c := FirstStep(ParentGraph(nodes), cur, node);
      ChainBlocksPath(nodes, c, node, fuel - 1);
    }
  }

  /** Giving a node a checked parent, or none, keeps the parent links a forest. */
  lemma ReparentKeepsForest(nodes: map<string, Node>, id: string, parent: string)
    requires id in nodes && id != "" && "" !in nodes
    requires Acyclic(ParentGraph(nodes))
    requires parent != "" ==> id != parent && ChainAvoids(nodes, parent, id, MaxGroupDepth)
    ensures Acyclic(ParentGraph(nodes[id := nodes[id].(parentId := parent)]))
  {
    var g := ParentGraph(nodes);
    var rest := ParentGraph(nodes - {id});
    SubgraphAcyclic(rest, g);
    ReparentGraph(nodes, id, parent);
    if parent == "" {
      assert ParentGraph(nodes[id := nodes[id].(parentId := parent)]) == rest;
    } else {
      ChainBlocksPath(nodes, parent, id, MaxGroupDepth);
      if Reaches(rest, parent, id) {
        ReachesMono(rest, g, parent, id);
      }
      AddArcAcyclic(rest, id, parent);
    }
  }

  lemma ReparentGraph(nodes: map<string, Node>, id: string, parent: string)
    requires id in nodes
    ensures ParentGraph(nodes[id := nodes[id].(parentId := parent)])
         == ParentGraph(nodes - {id}) + (if parent == "" then {} else {(id, parent)})
  {
    var after := nodes[id := nodes[id].(parentId := parent)];
    var h := ParentGraph(nodes - {id}) + (if parent == "" then {} else {(id, parent)});
    forall arc | arc in ParentGraph(after)
      ensures arc in h
    {
      if arc.0 != id {
        assert arc.0 in nodes - {id};
      }
    }
    forall arc | arc in h
      ensures arc in ParentGraph(after)
    {
      if arc in ParentGraph(nodes - {id}) {
        assert arc.0 in after && after[arc.0] == nodes[arc.0];
      } else {
        assert after[id].parentId == parent;
      }
    }
  }

  // ---------------------------------------------------------------- one lemma per operation

  /** Replacing one node by an acceptable one of the same type. */
  lemma UpdateNodesOk(table: Table, nodes: map<string, Node>, id: string, n: Node)
    requires NodesOk(table, nodes) && id in nodes
    requires ParentsOk(nodes)
    requires NodeOk(table, n) && n.id == id && n.ty == nodes[id].ty
    requires ParentOk(nodes, n.parentId)
    ensures NodesOk(table, nodes[id := n]) && ParentsOk(nodes[id := n])
  {
  }

  lemma SameParentGraph(nodes: map<string, Node>, id: string, n: Node)
    requires id in nodes && n.parentId == nodes[id].parentId
    ensures ParentGraph(nodes[id := n]) == ParentGraph(nodes)
  {
    assert forall k :: k in nodes ==> nodes[id := n][k].parentId == nodes[k].parentId;
  }

  lemma ReplaceSize<V>(m: map<string, V>, k: string, v: V)
    ensures k in m ==> |m[k := v]| == |m|
    ensures k !in m ==> |m[k := v]| == |m| + 1
  {
    assert m[k := v].Keys == m.Keys + {k};
    assert |m| == |m.Keys| && |m[k := v]| == |m[k := v].Keys|;
  }

  /** Changes that leave a node's identity, type, parent and ports alone. */
  lemma UpdateNodeKeeps(table: Table, d: Doc, id: string, n: Node)
    requires WF(table, d) && id in d.nodes
    requires NodeOk(table, n) && n.id == id && n.ty == d.nodes[id].ty
    requires n.parentId == d.nodes[id].parentId
    ensures WF(table, d.(nodes := d.nodes[id := n]))
  {
    var after := d.nodes[id := n];
    SameParentGraph(d.nodes, id, n);
    UpdateNodesOk(table, d.nodes, id, n);
    EdgesSurvive(d.nodes, after, d.edges);
    ReplaceSize(d.nodes, id, n);
  }

  lemma ReparentKeeps(table: Table, d: Doc, id: string, parent: string)
    requires WF(table, d) && id in d.nodes
    requires CheckParent(d.nodes, id, parent).Pass?
    ensures WF(table, d.(nodes := d.nodes[id := d.nodes[id].(parentId := parent)]))
  {
    var n := d.nodes[id].(parentId := parent);
    var after := d.nodes[id := n];
    ReparentKeepsForest(d.nodes, id, parent);
    UpdateNodesOk(table, d.nodes, id, n);
    EdgesSurvive(d.nodes, after, d.edges);
    ReplaceSize(d.nodes, id, n);
  }

  /** A new node under a checked parent closes no cycle, even when links of other nodes already dangle at its ID. */
  lemma AddNodeKeepsForest(nodes: map<string, Node>, n: Node)
    requires n.id !in nodes && n.id != "" && "" !in nodes
    requires Acyclic(ParentGraph(nodes))
    requires n.parentId != "" ==> ChainAvoids(nodes, n.parentId, n.id, MaxGroupDepth)
    ensures Acyclic(ParentGraph(nodes[n.id := n]))
  {
    var g := ParentGraph(nodes);
    var after := nodes[n.id := n];
    ReparentGraph(after, n.id, n.parentId);
    assert after[n.id := n.(parentId := n.parentId)] == after && after - {n.id} == nodes;
    if n.parentId == "" {
      assert ParentGraph(after) == g;
    } else {
      ChainBlocksPath(nodes, n.parentId, n.id, MaxGroupDepth);
      AddArcAcyclic(g, n.id, n.parentId);
    }
  }

  lemma AddNodesOk(table: Table, nodes: map<string, Node>, n: Node)
    requires NodesOk(table, nodes) && ParentsOk(nodes) && n.id !in nodes
    requires ValidId(n.id) && NodeOk(table, n) && ParentOk(nodes, n.parentId)
    ensures NodesOk(table, nodes[n.id := n]) && ParentsOk(nodes[n.id := n])
  {
  }

  lemma AddNodeAccepted(table: Table, d: Doc, n: Node)
    requires ApplyAddNode(table, d, n).Ok?
    ensures SchemaFor(table, n.ty).Some?
    ensures var m := Normalized(table, n);
            && ApplyAddNode(table, d, n).value == d.(nodes := d.nodes[n.id := m])
            && m.id == n.id && ValidId(n.id) && n.id != "" && n.id !in d.nodes && |d.nodes| < MaxNodesPerCanvas
            && NodeOk(table, m) && ParentOk(d.nodes, m.parentId)
            && (m.parentId != "" ==> ChainAvoids(d.nodes, m.parentId, n.id, MaxGroupDepth))
  {
  }

  lemma NoEmptyId(table: Table, nodes: map<string, Node>)
    requires NodesOk(table, nodes)
    ensures "" !in nodes
  {
  }

  lemma NewNodeKeepsEdges(nodes: map<string, Node>, n: Node, edges: map<string, Edge>)
    requires EdgesOk(nodes, edges) && SingleInputs(nodes, edges) && n.id !in nodes
    ensures EdgesOk(nodes[n.id := n], edges) && SingleInputs(nodes[n.id := n], edges)
  {
    EdgesSurvive(nodes, nodes[n.id := n], edges);
  }

  lemma AddNodeKeeps(table: Table, d: Doc, n: Node)
    requires WF(table, d) && ApplyAddNode(table, d, n).Ok?
    ensures WF(table, ApplyAddNode(table, d, n).value)
  {
    hide ApplyAddNode, NodesOk, NodeOk, ParentsOk, ParentOk, EdgesOk, SingleInputs, Acyclic, ParentGraph, FlowGraph, ChainAvoids,
      ValidId, Normalized;
    AddNodeAccepted(table, d, n);
    NoEmptyId(table, d.nodes);
    var m := Normalized(table, n);
    AddNodesOk(table, d.nodes, m);
    AddNodeKeepsForest(d.nodes, m);
    NewNodeKeepsEdges(d.nodes, m, d.edges);
    ReplaceSize(d.nodes, n.id, m);
  }

  lemma OrphanedShape(nodes: map<string, Node>, group: string)
    ensures Orphaned(nodes, group).Keys == nodes.Keys
    ensures SameShape(nodes, Orphaned(nodes, group)) && SameShape(nodes, Orphaned(nodes, group) - {group})
  {
  }

  lemma OrphanedNodesOk(table: Table, nodes: map<string, Node>, group: string)
    requires NodesOk(table, nodes)
    ensures NodesOk(table, Orphaned(nodes, group))
  {
    forall k | k in Orphaned(nodes, group)
      ensures ValidId(k) && Orphaned(nodes, group)[k].id == k && NodeOk(table, Orphaned(nodes, group)[k])
    {
      assert k in nodes;
    }
  }

  /** Moving the children of a group to the top level. */
  lemma OrphanedKeeps(table: Table, nodes: map<string, Node>, group: string)
    requires NodesOk(table, nodes) && ParentsOk(nodes) && Acyclic(ParentGraph(nodes))
    ensures NodesOk(table, Orphaned(nodes, group)) && ParentsOk(Orphaned(nodes, group))
    ensures Acyclic(ParentGraph(Orphaned(nodes, group)))
    ensures SameShape(nodes, Orphaned(nodes, group)) && Orphaned(nodes, group).Keys == nodes.Keys
    ensures group != "" ==> forall k :: k in nodes ==> Orphaned(nodes, group)[k].parentId != group
  {
    OrphanedNodesOk(table, nodes, group);
    OrphanedShape(nodes, group);
    SubgraphAcyclic(ParentGraph(Orphaned(nodes, group)), ParentGraph(nodes));
  }

  lemma DropNode(table: Table, nodes: map<string, Node>, id: string)
    requires NodesOk(table, nodes) && ParentsOk(nodes) && Acyclic(ParentGraph(nodes)) && id in nodes
    requires forall k :: k in nodes ==> nodes[k].parentId != id
    ensures NodesOk(table, nodes - {id}) && ParentsOk(nodes - {id}) && Acyclic(ParentGraph(nodes - {id}))
    ensures |nodes - {id}| == |nodes| - 1
  {
    SubgraphAcyclic(ParentGraph(nodes - {id}), ParentGraph(nodes));
    assert (nodes - {id}).Keys == nodes.Keys - {id};
    assert |nodes - {id}| == |(nodes - {id}).Keys|;
  }

  lemma EndpointsRemain(nodes: map<string, Node>, edges: map<string, Edge>, id: string, k: string)
    requires EdgesOk(nodes, edges) && k in WithoutIncident(edges, id)
    ensures edges[k].from.nodeId in Orphaned(nodes, id) - {id} && edges[k].to.nodeId in Orphaned(nodes, id) - {id}
  {
  }

  lemma RemoveNodeKeepsEdges(nodes: map<string, Node>, edges: map<string, Edge>, id: string)
    requires EdgesOk(nodes, edges) && SingleInputs(nodes, edges) && Acyclic(FlowGraph(edges))
    ensures EdgesOk(Orphaned(nodes, id) - {id}, WithoutIncident(edges, id))
    ensures SingleInputs(Orphaned(nodes, id) - {id}, WithoutIncident(edges, id))
    ensures Acyclic(FlowGraph(WithoutIncident(edges, id)))
    ensures |WithoutIncident(edges, id)| <= |edges|
  {
    var kept := WithoutIncident(edges, id);
    FewerEdges(nodes, edges, kept);
    SubgraphAcyclic(FlowGraph(kept), FlowGraph(edges));
    OrphanedShape(nodes, id);
    forall k | k in kept
      ensures kept[k].from.nodeId in Orphaned(nodes, id) - {id} && kept[k].to.nodeId in Orphaned(nodes, id) - {id}
    {
      EndpointsRemain(nodes, edges, id, k);
    }
    EdgesSurvive(nodes, Orphaned(nodes, id) - {id}, kept);
  }

  lemma RemoveNodeKeeps(table: Table, d: Doc, id: string, cascade: bool)
    requires WF(table, d) && ApplyRemoveNode(d, id, cascade).Ok?
    ensures WF(table, ApplyRemoveNode(d, id, cascade).value)
  {
    OrphanedKeeps(table, d.nodes, id);
    assert id != "";
    DropNode(table, Orphaned(d.nodes, id), id);
    RemoveNodeKeepsEdges(d.nodes, d.edges, id);
    assert |Orphaned(d.nodes, id)| == |Orphaned(d.nodes, id).Keys| == |d.nodes|;
  }

  lemma UngroupKeeps(table: Table, d: Doc, group: string)
    requires WF(table, d) && ApplyUngroup(d, group, true).Ok?
    ensures WF(table, ApplyUngroup(d, group, true).value)
  {
    OrphanedKeeps(table, d.nodes, group);
    EdgesSurvive(d.nodes, Orphaned(d.nodes, group), d.edges);
    assert |Orphaned(d.nodes, group)| == |Orphaned(d.nodes, group).Keys|;
  }

  lemma RemoveEdgeKeeps(table: Table, d: Doc, id: string)
    requires WF(table, d) && id in d.edges
    ensures WF(table, d.(edges := d.edges - {id}))
  {
    FewerEdges(d.nodes, d.edges, d.edges - {id});
    SubgraphAcyclic(FlowGraph(d.edges - {id}), FlowGraph(d.edges));
  }

  /** The cycle search that finds nothing rules out a flow path from the new edge's target to its source. */
  lemma NoSearchPathNoFlowPath(nodes: map<string, Node>, edges: map<string, Edge>, from: string, to: string)
    requires !Reaches(SearchGraph(nodes, edges), from, to)
    ensures !Reaches(FlowGraph(edges), to, from)
  {
    if Reaches(FlowGraph(edges), to, from) {
      ReverseReaches(FlowGraph(edges), to, from);
      ReachesMono(Reverse(FlowGraph(edges)), SearchGraph(nodes, edges), from, to);
    }
  }

  lemma WithoutReplacedFrees(d: Doc, e: Edge, k: string)
    requires k in WithoutReplaced(d, e) && d.edges[k].to == e.to
    ensures MultiInput(d.nodes, e.to)
  {
  }

  lemma AddEdgeKeepsEdges(d: Doc, e: Edge, added: Edge)
    requires EdgesOk(d.nodes, d.edges) && SingleInputs(d.nodes, d.edges)
    requires ValidId(added.id) && EdgeOk(d.nodes, added) && added.to == e.to
    ensures EdgesOk(d.nodes, WithoutReplaced(d, e)[added.id := added])
    ensures SingleInputs(d.nodes, WithoutReplaced(d, e)[added.id := added])
  {
    hide EdgeOk, ValidId, MultiInput, FlowGraph;
    var kept := WithoutReplaced(d, e);
    FewerEdges(d.nodes, d.edges, kept);
    var after := kept[added.id := added];
    forall j, k | j in after && k in after && j != k && after[j].to == after[k].to
      ensures MultiInput(d.nodes, after[k].to)
    {
      if j == added.id {
        WithoutReplacedFrees(d, e, k);
      } else if k == added.id {
        WithoutReplacedFrees(d, e, j);
      }
    }
  }

  lemma FlowGraphAdd(edges: map<string, Edge>, e: Edge)
    requires e.id !in edges
    ensures FlowGraph(edges[e.id := e]) == FlowGraph(edges) + {(e.from.nodeId, e.to.nodeId)}
  {
    var after := edges[e.id := e];
    var h := FlowGraph(edges) + {(e.from.nodeId, e.to.nodeId)};
    forall arc | arc in h
      ensures arc in FlowGraph(after)
    {
      if arc in FlowGraph(edges) {
        var k :| k in edges && arc == (edges[k].from.nodeId, edges[k].to.nodeId);
        assert k in after && after[k] == edges[k];
      } else {
        assert after[e.id] == e;
      }
    }
    forall arc | arc in FlowGraph(after)
      ensures arc in h
    {
      var k :| k in after && arc == (after[k].from.nodeId, after[k].to.nodeId);
      if k != e.id {
        assert k in edges && after[k] == edges[k];
      }
    }
  }

  lemma AddEdgeKeepsFlow(d: Doc, e: Edge, added: Edge)
    requires Acyclic(FlowGraph(d.edges)) && added.id !in d.edges
    requires !Reaches(SearchGraph(d.nodes, WithoutReplaced(d, e)), added.from.nodeId, added.to.nodeId)
    ensures Acyclic(FlowGraph(WithoutReplaced(d, e)[added.id := added]))
    ensures |WithoutReplaced(d, e)[added.id := added]| <= |d.edges| + 1
  {
    var kept := WithoutReplaced(d, e);
    FewerEdges(d.nodes, d.edges, kept);
    SubgraphAcyclic(FlowGraph(kept), FlowGraph(d.edges));
    NoSearchPathNoFlowPath(d.nodes, kept, added.from.nodeId, added.to.nodeId);
    AddArcAcyclic(FlowGraph(kept), added.from.nodeId, added.to.nodeId);
    FlowGraphAdd(kept, added);
    ReplaceSize(kept, added.id, added);
  }

  lemma AddEdgeKeeps(table: Table, d: Doc, e: Edge, who: Stamp)
    requires WF(table, d) && StampOk(who) && ApplyAddEdge(d, e, who).Ok?
    ensures WF(table, ApplyAddEdge(d, e, who).value)
  {
    hide WithoutReplaced, SearchGraph, FlowGraph, ParentGraph, Reaches, Acyclic, NodesOk, ParentsOk, EdgesOk, SingleInputs, ViewportOk,
      BackgroundOk;
    var added := Stamped(e, OutPort(d, e).value, who);
    AddEdgeKeepsFlow(d, e, added);
    AddEdgeKeepsEdges(d, e, added);
  }

  lemma {:induction false} AdoptKeeps(table: Table, d: Doc, ids: seq<string>, group: string)
    requires WF(table, d) && Adopt(d.nodes, ids, group).Ok? && group in d.nodes && group != ""
    ensures WF(table, d.(nodes := Adopt(d.nodes, ids, group).value))
    ensures group in Adopt(d.nodes, ids, group).value && Adopt(d.nodes, ids, group).value[group] == d.nodes[group]
    decreases |ids|
  {
    hide WF, CheckParent;
    if ids != [] {
      var front := ids[..|ids| - 1];
      AdoptKeeps(table, d, front, group);
      ReparentKeeps(table, d.(nodes := Adopt(d.nodes, front, group).value), ids[|ids| - 1], group);
    }
  }

  lemma OtherRectOk(table: Table, d: Doc, id: string, r: Rect)
    requires WF(table, d) && id in d.nodes && RectOk(r)
    ensures NodeOk(table, d.nodes[id].(rect := r)) && d.nodes[id].id == id
  {
    assert NodesOk(table, d.nodes);
  }

  lemma GroupKeeps(table: Table, d: Doc, ids: seq<string>, group: string, given: Option<Rect>)
    requires WF(table, d) && ApplyGroup(d, ids, group, given).Ok?
    ensures WF(table, ApplyGroup(d, ids, group, given).value)
  {
    hide WF, Adopt, GroupRect, NodeOk;
    AdoptKeeps(table, d, ids, group);
    var mid := d.(nodes := Adopt(d.nodes, ids, group).value);
    var r := GroupRect(d.nodes, ids, group, given);
    if RectOk(r) {
      OtherRectOk(table, mid, group, r);
      UpdateNodeKeeps(table, mid, group, mid.nodes[group].(rect := r));
    }
  }

  /** The one operation outside the theorem: ungrouping with `keepChildren` false. */
  predicate DeletesChildren(op: Op) {
    op.Ungroup? && !Default(op.keepChildren, true)
  }

  predicate ChangesOneNode(op: Op) {
    op.MoveNode? || op.ResizeNode? || op.SetTitle? || op.SetSpec? || op.SetState?
  }

  /** An accepted change of geometry, title, configuration or state puts an acceptable node in place of the old one. */
  lemma ChangeIsLocal(table: Table, d: Doc, op: Op, who: Stamp)
    requires ChangesOneNode(op) && ApplyOp(table, d, op, who).Ok?
    requires op.id in d.nodes ==> NodeOk(table, d.nodes[op.id])
    ensures op.id in d.nodes && op.id in ApplyOp(table, d, op, who).value.nodes
    ensures var n := ApplyOp(table, d, op, who).value.nodes[op.id]; var m := d.nodes[op.id];
      && ApplyOp(table, d, op, who).value == d.(nodes := d.nodes[op.id := n])
      && NodeOk(table, n) && n.id == m.id && n.ty == m.ty && n.parentId == m.parentId && n.ports == m.ports
  {
  }

  lemma OpKeepsWellFormed(table: Table, d: Doc, op: Op, who: Stamp)
    requires WF(table, d) && StampOk(who) && !DeletesChildren(op)
    requires ApplyOp(table, d, op, who).Ok?
    ensures WF(table, ApplyOp(table, d, op, who).value)
  {
    if ChangesOneNode(op) {
      ChangeIsLocal(table, d, op, who);
      UpdateNodeKeeps(table, d, op.id, ApplyOp(table, d, op, who).value.nodes[op.id]);
    } else {
      StructureOpKeeps(table, d, op, who);
    }
  }

  lemma SetViewportKeeps(table: Table, d: Doc, v: Viewport)
    requires WF(table, d) && ApplySetViewport(d, v).Ok?
    ensures WF(table, ApplySetViewport(d, v).value)
  {
  }

  lemma SetSettingsKeeps(table: Table, d: Doc, patch: map<string, Value>)
    requires WF(table, d) && ApplySetSettings(d, patch).Ok?
    ensures WF(table, ApplySetSettings(d, patch).value)
  {
    assert "background" in patch ==> SettingOk("background", patch["background"]);
  }

  lemma StructureOpKeeps(table: Table, d: Doc, op: Op, who: Stamp)
    requires WF(table, d) && StampOk(who) && !DeletesChildren(op) && !ChangesOneNode(op)
    requires ApplyOp(table, d, op, who).Ok?
    ensures WF(table, ApplyOp(table, d, op, who).value)
  {
    hide WF;
    match op
    case AddNode(n) => AddNodeKeeps(table, d, n);
    case RemoveNode(id, cascade) => RemoveNodeKeeps(table, d, id, Default(cascade, true));
    case AddEdge(e) => AddEdgeKeeps(table, d, e, who);
    case RemoveEdge(id) => RemoveEdgeKeeps(table, d, id);
    case Group(ids, group, _, rect) => GroupKeeps(table, d, ids, group, rect);
    case Ungroup(group, _) => UngroupKeeps(table, d, group);
    case SetViewport(v) => SetViewportKeeps(table, d, v);
    case SetSettings(patch) => SetSettingsKeeps(table, d, patch);
    case SetParent(id, parent) => ReparentKeeps(table, d, id, parent);
    case _ =>
  }

  /** Every accepted batch without a child-deleting ungroup keeps the document well formed. */
  lemma {:induction false} BatchKeepsWellFormed(table: Table, d: Doc, ops: seq<Op>, who: Stamp)
    requires WF(table, d) && StampOk(who)
    requires forall i :: 0 <= i < |ops| ==> !DeletesChildren(ops[i])
    requires ApplyAll(table, d, ops, who).Ok?
    ensures WF(table, ApplyAll(table, d, ops, who).value)
    decreases |ops|
  {
    hide ApplyOp, WF;
    if ops != [] {
      var front := ops[..|ops| - 1];
      BatchKeepsWellFormed(table, d, front, who);
      OpKeepsWellFormed(table, ApplyAll(table, d, front, who).value, ops[|ops| - 1], who);
    }
  }
}
