/** Neither edges nor parent links ever form a cycle: what every accepted operation keeps, the child-deleting ungroup included. */
module CycleFreedom {
  import opened Outcomes
  import opened Digraphs
  import opened Documents
  import opened Schemas
  import opened Operations
  import opened WellFormed
  import opened Rebase

  /** No node has the empty ID, and following parent links never comes back; a link may dangle. */
  ghost predicate Forest(nodes: map<string, Node>) {
    "" !in nodes && Acyclic(ParentGraph(nodes))
  }

  /** No cycle of edges and none of parent links. */
  ghost predicate NoCycles(d: Doc) {
    Forest(d.nodes) && Acyclic(FlowGraph(d.edges))
  }

  lemma EmptyHasNoCycles()
    ensures NoCycles(EmptyDoc)
  {
  }

  /** Dropping nodes and cutting parent links keeps a forest. */
  lemma PruningKeepsForest(before: map<string, Node>, after: map<string, Node>)
    requires Forest(before)
    requires forall k :: k in after ==> k in before && (after[k].parentId == "" || after[k].parentId == before[k].parentId)
    ensures Forest(after)
  {
    SubgraphAcyclic(ParentGraph(after), ParentGraph(before));
  }

  /** Changes of geometry, title, configuration and state leave every parent link alone. */
  lemma ChangeKeepsForest(table: Table, d: Doc, op: Op, who: Stamp)
    requires Forest(d.nodes) && ChangesOneNode(op) && ApplyOp(table, d, op, who).Ok?
    ensures Forest(ApplyOp(table, d, op, who).value.nodes)
  {
    ChangeKeepsParents(table, d, op, who);
    PruningKeepsForest(d.nodes, ApplyOp(table, d, op, who).value.nodes);
  }

  lemma ChangeKeepsParents(table: Table, d: Doc, op: Op, who: Stamp)
    requires ChangesOneNode(op) && ApplyOp(table, d, op, who).Ok?
    ensures var after := ApplyOp(table, d, op, who).value.nodes;
            forall k :: k in after ==> k in d.nodes && after[k].parentId == d.nodes[k].parentId
  {
    hide ApplyOp, Change;
    ChangeIsApplied(table, d, op, who);
    ChangeFrame(table, d.nodes[op.id], op, Geometry);
  }

  lemma AddNodeKeeps(table: Table, d: Doc, n: Node)
    requires Forest(d.nodes) && ApplyAddNode(table, d, n).Ok?
    ensures Forest(ApplyAddNode(table, d, n).value.nodes)
  {
    hide Acyclic, ParentGraph;
    AddNodeKeepsForest(d.nodes, Normalized(table, n));
  }

  lemma SetParentKeeps(nodes: map<string, Node>, id: string, parent: string)
    requires Forest(nodes) && id in nodes && CheckParent(nodes, id, parent).Pass?
    ensures Forest(nodes[id := nodes[id].(parentId := parent)])
  {
    ReparentKeepsForest(nodes, id, parent);
  }

  lemma {:induction false} AdoptKeeps(nodes: map<string, Node>, ids: seq<string>, group: string)
    requires Forest(nodes) && group in nodes && Adopt(nodes, ids, group).Ok?
    ensures Forest(Adopt(nodes, ids, group).value)
    ensures group in Adopt(nodes, ids, group).value && Adopt(nodes, ids, group).value[group] == nodes[group]
    decreases |ids|
  {
    hide Forest, ChainAvoids;
    if ids != [] {
      var front := ids[..|ids| - 1];
      AdoptKeeps(nodes, front, group);
      SetParentKeeps(Adopt(nodes, front, group).value, ids[|ids| - 1], group);
    }
  }

  lemma GroupKeeps(d: Doc, ids: seq<string>, group: string, given: Option<Rect>)
    requires Forest(d.nodes) && ApplyGroup(d, ids, group, given).Ok?
    ensures Forest(ApplyGroup(d, ids, group, given).value.nodes)
  {
    hide Adopt, GroupRect, Acyclic;
    AdoptKeeps(d.nodes, ids, group);
    PruningKeepsForest(Adopt(d.nodes, ids, group).value, ApplyGroup(d, ids, group, given).value.nodes);
  }

  /** Every accepted operation of whatever kind keeps the parent links a forest. */
  lemma OpKeepsForest(table: Table, d: Doc, op: Op, who: Stamp)
    requires Forest(d.nodes) && ApplyOp(table, d, op, who).Ok?
    ensures Forest(ApplyOp(table, d, op, who).value.nodes)
  {
    hide Forest, CheckParent, ApplyGroup, ApplyAddNode;
    if ChangesOneNode(op) {
      ChangeKeepsForest(table, d, op, who);
    } else {
      match op
      case AddNode(n) => AddNodeKeeps(table, d, n);
      case Group(ids, group, _, rect) => GroupKeeps(d, ids, group, rect);
      case SetParent(id, parent) => SetParentKeeps(d.nodes, id, parent);
      case RemoveNode(_, _) => PruningKeepsForest(d.nodes, ApplyOp(table, d, op, who).value.nodes);
      case Ungroup(_, _) => PruningKeepsForest(d.nodes, ApplyOp(table, d, op, who).value.nodes);
      case _ =>
    }
  }

  /** Every accepted operation of whatever kind keeps the edges free of cycles, even where edges have lost an end. */
  lemma OpKeepsFlow(table: Table, d: Doc, op: Op, who: Stamp)
    requires Acyclic(FlowGraph(d.edges)) && ApplyOp(table, d, op, who).Ok?
    ensures Acyclic(FlowGraph(ApplyOp(table, d, op, who).value.edges))
  {
    var after := ApplyOp(table, d, op, who).value.edges;
    if op.AddEdge? {
      AddEdgeKeepsFlow(d, op.edge, Stamped(op.edge, OutPort(d, op.edge).value, who));
    } else {
      EdgesOnlyGo(table, d, op, who);
      FewerEdges(d.nodes, d.edges, after);
      SubgraphAcyclic(FlowGraph(after), FlowGraph(d.edges));
    }
  }

  lemma EdgesOnlyGo(table: Table, d: Doc, op: Op, who: Stamp)
    requires !op.AddEdge? && ApplyOp(table, d, op, who).Ok?
    ensures var after := ApplyOp(table, d, op, who).value.edges;
            after.Keys <= d.edges.Keys && forall k :: k in after ==> after[k] == d.edges[k]
  {
    hide SchemaFor, SpecCheck, CheckParent, Adopt, MovedNode, ResizedNode, TitledNode, ConfiguredNode, StatedNode, GroupRect, Orphaned,
      MergedSettings, Normalized, RectOk, ChildIds;
  }

  /** No accepted list of operations, whatever it holds, creates a cycle of edges or of parent links. */
  lemma {:induction false} BatchKeepsNoCycles(table: Table, d: Doc, ops: seq<Op>, who: Stamp)
    requires NoCycles(d) && ApplyAll(table, d, ops, who).Ok?
    ensures NoCycles(ApplyAll(table, d, ops, who).value)
    decreases |ops|
  {
    hide ApplyOp, Forest, Acyclic;
    if ops != [] {
      BatchKeepsNoCycles(table, d, ops[..|ops| - 1], who);
      OpKeepsForest(table, ApplyAll(table, d, ops[..|ops| - 1], who).value, ops[|ops| - 1], who);
      OpKeepsFlow(table, ApplyAll(table, d, ops[..|ops| - 1], who).value, ops[|ops| - 1], who);
    }
  }
}
