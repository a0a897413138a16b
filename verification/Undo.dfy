/** Undo: when applying the recorded inverses, last operation first, brings the document back exactly. */
module Undo {
  import opened Outcomes
  import opened Ordering
  import opened Digraphs
  import opened Documents
  import opened Schemas
  import opened Operations
  import opened WellFormed
  import opened CycleCheck
  import opened Batches
  import opened Regrouping

  function InverseOps(inv: Inverse): seq<Op> {
    match inv
    case One(op) => [op]
    case Many(ops) => ops
  }

  /** The recorded inverses from the last operation to the first, each list kept in its own order. */
  function UndoOps(inverse: seq<Inverse>): seq<Op> {
    if inverse == [] then []
    else InverseOps(inverse[|inverse| - 1]) + UndoOps(inverse[..|inverse| - 1])
  }

  predicate MetaRestorable(meta: map<string, Value>, patch: map<string, Value>) {
    && meta != map[] && patch.Keys <= meta.Keys && |meta| <= MaxMetaKeys
    && forall k :: k in meta ==> MetaKeyOk(k) && !meta[k].Null?
  }

  predicate StateRestorable(n: Node, state: string, result: Option<NodeResult>, error: Option<NodeError>) {
    if n.state == "idle" then n.result.None? && n.error.None?
    else (n.result.Some? || state == "idle" || result.None?) && (n.error.Some? || state == "idle" || error.None?)
  }

  /** What to look at, in the document an operation is about to change, to know that it can be undone exactly. */
  predicate Undoable(table: Table, d: Doc, op: Op) {
    match op
    case RemoveNode(id, _) =>
      id in d.nodes && ValidateSpec(table, d.nodes[id].ty, d.nodes[id].spec).Accepted?
      && ChainEnds(d.nodes, d.nodes[id].parentId, MaxGroupDepth) && Readoptable(d.nodes, id)
    case SetTitle(id, title) => id in d.nodes && (d.nodes[id].title != "" || title == "")
    case SetSpec(id, patch, unset, meta, metaUnset) =>
      id in d.nodes &&
      if |meta| > 0 || |metaUnset| > 0 then MetaRestorable(d.nodes[id].meta, meta)
      else d.nodes[id].spec != map[] && patch.Keys <= d.nodes[id].spec.Keys
    case SetState(id, state, result, error) => id in d.nodes && StateRestorable(d.nodes[id], state, result, error)
    case AddEdge(e) => ReplacesNothing(d, e)
    case Group(ids, group, _, rect) => GroupRestorable(d.nodes, ids, group, rect)
    case Ungroup(group, keep) => Default(keep, true) && Readoptable(d.nodes, group)
    case SetParent(id, _) => id in d.nodes && ChainEnds(d.nodes, d.nodes[id].parentId, MaxGroupDepth)
    case _ => true
  }

  // ---------------------------------------------------------------- one operation at a time

  lemma NoChildrenYet(nodes: map<string, Node>, n: Node)
    requires ParentsOk(nodes) && n.id !in nodes && n.parentId != n.id && n.id != ""
    ensures Orphaned(nodes[n.id := n], n.id) - {n.id} == nodes
  {
    forall k | k in nodes
      ensures nodes[k].parentId != n.id
    {
      assert ParentOk(nodes, nodes[k].parentId);
    }
  }

  lemma NoEdgesYet(nodes: map<string, Node>, edges: map<string, Edge>, id: string)
    requires EdgesOk(nodes, edges) && id !in nodes
    ensures WithoutIncident(edges, id) == edges
  {
    forall k | k in edges
      ensures !Incident(edges[k], id)
    {
      assert EdgeOk(nodes, edges[k]);
    }
  }

  lemma OwnParent(table: Table, d: Doc, n: Node)
    requires ApplyAddNode(table, d, n).Ok?
    ensures n.parentId != n.id
  {
  }

  lemma UndoAddNode(table: Table, d: Doc, n: Node)
    requires WF(table, d) && ApplyAddNode(table, d, n).Ok?
    ensures ApplyRemoveNode(ApplyAddNode(table, d, n).value, n.id, true) == Ok(d)
  {
    hide Orphaned, WithoutIncident, NodesOk, ParentsOk, EdgesOk, SingleInputs, Acyclic, ParentGraph, FlowGraph, CheckParent, ValidId,
      SpecCheck;
    AddNodeAccepted(table, d, n);
    OwnParent(table, d, n);
    NoChildrenYet(d.nodes, Normalized(table, n));
    NoEdgesYet(d.nodes, d.edges, n.id);
  }

  /** Writing a node over a replacement restores the document exactly when it is the node that was there. */
  lemma WriteBack(d: Doc, id: string, m: Node, x: Node)
    requires id in d.nodes
    ensures d.(nodes := d.nodes[id := m]).(nodes := d.nodes[id := m][id := x]) == d <==> x == d.nodes[id]
  {
    assert d.nodes[id := m][id := d.nodes[id]] == d.nodes;
    assert d.nodes[id := m][id := x][id] == x;
  }

  lemma UndoMoveNode(d: Doc, id: string, x: real, y: real, delta: bool)
    requires ApplyMoveNode(d, id, x, y, delta).Ok? && RectOk(d.nodes[id].rect)
    ensures ApplyMoveNode(ApplyMoveNode(d, id, x, y, delta).value, id, d.nodes[id].rect.x, d.nodes[id].rect.y, false) == Ok(d)
  {
    var n := d.nodes[id];
    var m := n.(rect := MovedRect(n.rect, x, y, delta));
    WriteBack(d, id, m, n);
    assert m.(rect := MovedRect(m.rect, n.rect.x, n.rect.y, false)) == n;
  }

  lemma UndoResizeNode(d: Doc, id: string, w: real, h: real, keepAspect: bool)
    requires ApplyResizeNode(d, id, w, h, keepAspect).Ok? && RectOk(d.nodes[id].rect)
    ensures ApplyResizeNode(ApplyResizeNode(d, id, w, h, keepAspect).value, id, d.nodes[id].rect.w, d.nodes[id].rect.h, false) == Ok(d)
  {
    var n := d.nodes[id];
    var m := n.(rect := ResizedRect(n.rect, w, h, keepAspect));
    WriteBack(d, id, m, n);
    assert m.(rect := ResizedRect(m.rect, n.rect.w, n.rect.h, false)) == n;
  }

  lemma UndoSetTitle(d: Doc, id: string, title: string)
    requires ApplySetTitle(d, id, title).Ok? && |d.nodes[id].title| <= MaxTitleLen
    ensures ApplySetTitle(ApplySetTitle(d, id, title).value, id, d.nodes[id].title) == Ok(d)
       <==> (d.nodes[id].title != "" || title == "")
  {
    var n := d.nodes[id];
    var m := n.(title := if title == "" then n.title else title);
    var back := m.(title := if n.title == "" then m.title else n.title);
    WriteBack(d, id, m, back);
    assert back == n <==> (n.title != "" || title == "");
  }

  lemma UndoSetState(d: Doc, id: string, state: string, result: Option<NodeResult>, error: Option<NodeError>)
    requires ApplySetState(d, id, state, result, error).Ok? && ValidNodeState(d.nodes[id].state)
    ensures ApplySetState(ApplySetState(d, id, state, result, error).value,
                          id, d.nodes[id].state, d.nodes[id].result, d.nodes[id].error) == Ok(d)
       <==> StateRestorable(d.nodes[id], state, result, error)
  {
    var n := d.nodes[id];
    var after := ApplySetState(d, id, state, result, error).value;
    var m := after.nodes[id];
    var back := ApplySetState(after, id, n.state, n.result, n.error);
    WriteBack(d, id, m, back.value.nodes[id]);
    assert back.value.nodes[id] == n <==> StateRestorable(n, state, result, error);
  }

  lemma UndoSetParent(table: Table, d: Doc, id: string, parent: string)
    requires WF(table, d) && ApplySetParent(d, id, parent).Ok?
    ensures ApplySetParent(ApplySetParent(d, id, parent).value, id, d.nodes[id].parentId) == Ok(d)
        <==> ChainEnds(d.nodes, d.nodes[id].parentId, MaxGroupDepth)
  {
    hide NodesOk, EdgesOk, SingleInputs, Acyclic, FlowGraph, ParentGraph, ChainEnds, ChainAvoids, RectOk;
    RectsOk(table, d);
    EmptyChainEnds(d.nodes);
    var n := d.nodes[id];
    var up := n.parentId;
    var after := d.nodes[id := n.(parentId := parent)];
    assert ParentOk(d.nodes, d.nodes[id].parentId);
    assert after[id := after[id].(parentId := up)] == d.nodes;
    if up != "" {
      ParentDoesNotReachChild(d.nodes, id);
      ReachesSelf(ParentGraph(d.nodes), id);
      ChainAgrees(d.nodes, after, {id}, up, id, MaxGroupDepth);
      ChainAvoidsUnreached(d.nodes, up, id, MaxGroupDepth);
      assert after[up].ty == d.nodes[up].ty;
    }
  }

  lemma ReaddPassesChecks(d: Doc, cur: Doc, e: Edge, who: Stamp)
    requires ValidId(e.id) && e.id !in cur.edges && EdgeOk(cur.nodes, e) && |cur.edges| < MaxEdgesPerCanvas
    ensures CheckEdge(cur, e).Pass? && OutPort(cur, e).Some? && Stamped(e, OutPort(cur, e).value, who) == e
  {
  }

  lemma ReaddClosesNoCycle(nodes: map<string, Node>, all: map<string, Edge>, edges: map<string, Edge>, e: Edge)
    requires ParentsOk(nodes) && EdgesOk(nodes, edges) && EdgeOk(nodes, e)
    requires FlowGraph(edges) <= FlowGraph(all) && Acyclic(FlowGraph(all))
    requires (e.from.nodeId, e.to.nodeId) in FlowGraph(all)
    ensures !Reaches(SearchGraph(nodes, edges), e.from.nodeId, e.to.nodeId)
  {
    SubgraphAcyclic(FlowGraph(edges), FlowGraph(all));
    SearchFindsExactlyCycles(nodes, edges, e.from.nodeId, e.to.nodeId);
    if Reaches(FlowGraph(edges), e.to.nodeId, e.from.nodeId) {
      ReachesMono(FlowGraph(edges), FlowGraph(all), e.to.nodeId, e.from.nodeId);
    }
  }

  lemma FewerThanAll(part: map<string, Edge>, all: map<string, Edge>, id: string)
    requires part.Keys <= all.Keys && id in all && id !in part
    ensures |part| < |all|
  {
    CardinalityMono(part.Keys + {id}, all.Keys);
    assert |part.Keys + {id}| == |part| + 1;
  }

  /** Putting an edge of a well-formed document back next to some of the others. */
  lemma ReaddEdge(table: Table, d: Doc, cur: Doc, id: string, who: Stamp)
    requires WF(table, d) && id in d.edges && id !in cur.edges && cur.nodes == d.nodes
    requires cur.edges.Keys <= d.edges.Keys && forall k :: k in cur.edges ==> cur.edges[k] == d.edges[k]
    ensures ApplyAddEdge(cur, d.edges[id], who) == Ok(cur.(edges := cur.edges[id := d.edges[id]]))
  {
    hide CheckEdge, Stamped, EdgeOk, WithoutReplaced, NodesOk, SingleInputs, Acyclic, Reaches, SearchGraph;
    var e := d.edges[id];
    FewerEdges(d.nodes, d.edges, cur.edges);
    FewerThanAll(cur.edges, d.edges, id);
    ReaddPassesChecks(d, cur, e, who);
    ReaddReplacesNothing(d.nodes, d.edges, cur, id);
    ReaddClosesNoCycle(d.nodes, d.edges, cur.edges, e);
  }

  lemma ReaddReplacesNothing(nodes: map<string, Node>, edges: map<string, Edge>, cur: Doc, id: string)
    requires SingleInputs(nodes, edges) && id in edges && id !in cur.edges && cur.nodes == nodes
    requires cur.edges.Keys <= edges.Keys && forall k :: k in cur.edges ==> cur.edges[k] == edges[k]
    ensures WithoutReplaced(cur, edges[id]) == cur.edges
  {
    var e := edges[id];
    if InPort(cur, e).Some? && !InPort(cur, e).value.multiple {
      forall k | k in cur.edges
        ensures cur.edges[k].to != e.to
      {
        assert k in edges && k != id;
      }
    }
  }

  lemma UndoRemoveEdge(table: Table, d: Doc, id: string, who: Stamp)
    requires WF(table, d) && id in d.edges
    ensures ApplyAddEdge(d.(edges := d.edges - {id}), d.edges[id], who) == Ok(d)
  {
    hide WF, ApplyAddEdge;
    ReaddEdge(table, d, d.(edges := d.edges - {id}), id, who);
    assert (d.edges - {id})[id := d.edges[id]] == d.edges;
  }

  predicate ReplacesNothing(d: Doc, e: Edge) {
    InPort(d, e).None? || InPort(d, e).value.multiple || forall k :: k in d.edges ==> d.edges[k].to != e.to
  }

  lemma ReplacesNothingExactly(d: Doc, e: Edge)
    ensures WithoutReplaced(d, e) == d.edges <==> ReplacesNothing(d, e)
  {
    if !ReplacesNothing(d, e) {
      var k :| k in d.edges && d.edges[k].to == e.to;
      assert k !in WithoutReplaced(d, e);
    }
  }

  lemma UndoAddEdge(d: Doc, e: Edge, who: Stamp)
    requires ApplyAddEdge(d, e, who).Ok?
    ensures ApplyRemoveEdge(ApplyAddEdge(d, e, who).value, e.id) == Ok(d) <==> ReplacesNothing(d, e)
  {
    hide ReplacesNothing, Reaches, SearchGraph;
    var kept := WithoutReplaced(d, e);
    ReplacesNothingExactly(d, e);
    assert ApplyAddEdge(d, e, who).value.edges - {e.id} == kept;
  }

  // ---------------------------------------------------------------- configurations

  /** Writing the old map over the new one restores it exactly when the change added no key. */
  lemma MapBack(prev: map<string, Value>, patch: map<string, Value>, unset: seq<string>, lost: seq<string>)
    requires forall k :: k in lost ==> k in prev
    ensures Without(Without(prev, unset) + patch, lost) + prev == prev <==> patch.Keys <= prev.Keys
  {
    var back := Without(Without(prev, unset) + patch, lost) + prev;
    if back == prev {
      forall k | k in patch
        ensures k in prev
      {
        assert k in back;
      }
    }
  }

  lemma UndoSetFields(table: Table, d: Doc, id: string, patch: map<string, Value>, unset: seq<string>,
                      lost: seq<string>)
    requires Strict(table) && id in d.nodes && !ValidateSpec(table, d.nodes[id].ty, d.nodes[id].spec).Rejected?
    requires ApplySetSpec(table, d, id, patch, unset, map[], []).Ok?
    requires forall k :: k in lost ==> k in d.nodes[id].spec
    ensures ApplySetSpec(table, ApplySetSpec(table, d, id, patch, unset, map[], []).value, id, d.nodes[id].spec, lost, map[], []) == Ok(d)
       <==> (d.nodes[id].spec != map[] && patch.Keys <= d.nodes[id].spec.Keys)
  {
    var n := d.nodes[id];
    var prev := n.spec;
    var next := PatchedSpec(table, n.ty, prev, patch, unset).value;
    SpecFieldsOfAcceptedAllowed(table, n.ty, prev);
    MapBack(prev, patch, unset, lost);
    PatchedSpecIs(table, n.ty, prev, patch, unset);
    hide PatchedSpec, Without;
    KeysOfSome(prev, lost);
    if prev != map[] {
      assert |prev| > 0;
      RepatchSpec(table, n.ty, next, prev, lost);
      var back := PatchedSpec(table, n.ty, next, prev, lost);
      if back.Ok? {
        WriteBack(d, id, n.(spec := next), n.(spec := next).(spec := back.value));
        assert n.(spec := next).(spec := back.value) == n <==> back.value == prev;
      }
    }
  }

  lemma KeysOfSome(m: map<string, Value>, keys: seq<string>)
    requires forall k :: k in keys ==> k in m
    ensures |keys| > 0 ==> m != map[]
  {
    if |keys| > 0 {
      assert keys[0] in keys;
    }
  }

  lemma PatchedSpecIs(table: Table, ty: string, spec: map<string, Value>, patch: map<string, Value>, unset: seq<string>)
    requires PatchedSpec(table, ty, spec, patch, unset).Ok?
    ensures PatchedSpec(table, ty, spec, patch, unset).value == Without(spec, unset) + patch
  {
  }

  lemma SpecFieldsOfAcceptedAllowed(table: Table, ty: string, spec: map<string, Value>)
    requires Strict(table) && !ValidateSpec(table, ty, spec).Rejected?
    ensures forall k :: k in spec ==> SpecFieldAllowed(table, ty, k)
  {
  }

  lemma RepatchSpec(table: Table, ty: string, next: map<string, Value>, prev: map<string, Value>, lost: seq<string>)
    requires forall k :: k in prev ==> SpecFieldAllowed(table, ty, k)
    requires forall k :: k in lost ==> k in prev
    requires !ValidateSpec(table, ty, prev).Rejected?
    ensures Without(next, lost) + prev == prev ==> PatchedSpec(table, ty, next, prev, lost) == Ok(prev)
    ensures Without(next, lost) + prev != prev ==> PatchedSpec(table, ty, next, prev, lost) != Ok(prev)
  {
    forall i | 0 <= i < |lost|
      ensures SpecFieldAllowed(table, ty, lost[i])
    {
      assert lost[i] in lost;
    }
  }

  lemma {:induction false} RemovedFrom(m: map<string, Value>, keys: seq<string>)
    ensures forall k :: k in Removed(m, keys) ==> k in m && k in keys
    decreases |keys|
  {
    if keys != [] {
      RemovedFrom(m, keys[..|keys| - 1]);
    }
  }

  lemma PatchedMetaIs(before: map<string, Value>, meta: map<string, Value>, metaUnset: seq<string>)
    requires PatchedMeta(before, meta, metaUnset).Ok?
    ensures PatchedMeta(before, meta, metaUnset).value == Without(before, metaUnset) + meta
    ensures forall k :: k in metaUnset ==> MetaKeyOk(k)
  {
  }

  lemma RepatchMeta(next: map<string, Value>, prev: map<string, Value>, patch: map<string, Value>, removed: seq<string>)
    requires forall k :: k in removed ==> k in prev && MetaKeyOk(k)
    requires Without(next, removed) + prev == prev <==> patch.Keys <= prev.Keys
    requires prev != map[]
    ensures PatchedMeta(next, prev, removed) == Ok(prev) <==> MetaRestorable(prev, patch)
  {
    forall i | 0 <= i < |removed|
      ensures MetaKeyOk(removed[i])
    {
      assert removed[i] in removed;
    }
  }

  lemma UndoSetMeta(table: Table, d: Doc, id: string, patch: map<string, Value>, unset: seq<string>,
                    meta: map<string, Value>, metaUnset: seq<string>)
    requires id in d.nodes && (|meta| > 0 || |metaUnset| > 0)
    requires ApplySetSpec(table, d, id, patch, unset, meta, metaUnset).Ok?
    ensures ApplySetSpec(table, ApplySetSpec(table, d, id, patch, unset, meta, metaUnset).value,
                         id, map[], [], d.nodes[id].meta, Removed(d.nodes[id].meta, metaUnset)) == Ok(d)
       <==> MetaRestorable(d.nodes[id].meta, meta)
  {
    var n := d.nodes[id];
    var prev := n.meta;
    var next := PatchedMeta(prev, meta, metaUnset).value;
    var removed := Removed(prev, metaUnset);
    RemovedFrom(prev, metaUnset);
    PatchedMetaIs(prev, meta, metaUnset);
    MapBack(prev, meta, metaUnset, removed);
    KeysOfSome(prev, removed);
    hide PatchedMeta, Without, Removed;
    if prev != map[] {
      assert |prev| > 0;
      RepatchMeta(next, prev, meta, removed);
      var back := PatchedMeta(next, prev, removed);
      if back.Ok? {
        WriteBack(d, id, n.(meta := next), n.(meta := next).(meta := back.value));
        assert n.(meta := next).(meta := back.value) == n <==> back.value == prev;
      }
    }
  }

  // ---------------------------------------------------------------- canvas-wide and groups

  lemma UndoSetSettings(d: Doc, patch: map<string, Value>)
    requires ApplySetSettings(d, patch).Ok? && BackgroundOk(d.settings.background)
    ensures ApplySetSettings(ApplySetSettings(d, patch).value, SettingsPatch(d.settings)) == Ok(d)
  {
    hide SettingsPatch, PatchedSettings;
    var whole := SettingsPatch(d.settings);
    WholePatchIsAccepted(d.settings);
    WholePatchWins(PatchedSettings(d.settings, patch), d.settings);
  }

  lemma WholePatchIsAccepted(s: Settings)
    requires BackgroundOk(s.background)
    ensures |SettingsPatch(s)| > 0 && forall k :: k in SettingsPatch(s) ==> SettingOk(k, SettingsPatch(s)[k])
  {
    assert "background" in SettingsPatch(s);
  }

  lemma WholePatchWins(current: Settings, s: Settings)
    ensures PatchedSettings(current, SettingsPatch(s)) == s
  {
  }

  lemma UndoUngroup(table: Table, d: Doc, group: string, who: Stamp)
    requires WF(table, d) && ApplyUngroup(d, group, true).Ok?
    ensures ApplyAll(table, ApplyUngroup(d, group, true).value, SetParents(ChildrenOf(d.nodes, group), group), who) == Ok(d)
       <==> Readoptable(d.nodes, group)
  {
    hide ApplyAll, Orphaned, ChildrenOf, Readoptable, NodeOk;
    RectsOk(table, d);
    Readopt(table, d, d.edges, group, who);
    assert d.(edges := d.edges) == d;
  }

  // ---------------------------------------------------------------- removed nodes

  /** Adding the removed node again, before its children and edges return. */
  lemma ReaddNode(table: Table, d: Doc, id: string)
    requires WF(table, d) && id in d.nodes
    ensures var gone := d.(nodes := Orphaned(d.nodes, id) - {id}, edges := WithoutIncident(d.edges, id));
      var n := d.nodes[id];
      if ValidateSpec(table, n.ty, n.spec).Accepted? && ChainEnds(d.nodes, n.parentId, MaxGroupDepth) then
        ApplyAddNode(table, gone, n) == Ok(gone.(nodes := Orphaned(d.nodes, id)))
      else ApplyAddNode(table, gone, n).Err?
  {
    hide WF, Orphaned, WithoutIncident, CheckParent, Acyclic;
    var n := d.nodes[id];
    NodeFacts(table, d, id);
    ReaddedMap(d.nodes, id);
    ReaddParentCheck(d.nodes, id);
    assert Normalized(table, n) == n;
    SmallerAfterRemoval(d.nodes, id);
  }

  lemma NodeFacts(table: Table, d: Doc, id: string)
    requires WF(table, d) && id in d.nodes
    ensures ValidId(id) && d.nodes[id].id == id && NodeOk(table, d.nodes[id]) && ParentOk(d.nodes, d.nodes[id].parentId)
    ensures Acyclic(ParentGraph(d.nodes)) && "" !in d.nodes && |d.nodes| <= MaxNodesPerCanvas
    ensures ValidNodeTypeId(d.nodes[id].ty)
  {
  }

  lemma SmallerAfterRemoval(nodes: map<string, Node>, id: string)
    requires id in nodes
    ensures |Orphaned(nodes, id) - {id}| < |nodes|
  {
    assert (Orphaned(nodes, id) - {id}).Keys == nodes.Keys - {id};
    assert |Orphaned(nodes, id) - {id}| == |nodes.Keys - {id}|;
  }

  lemma ReaddedMap(nodes: map<string, Node>, id: string)
    requires id in nodes && Acyclic(ParentGraph(nodes)) && id != ""
    ensures (Orphaned(nodes, id) - {id})[id := nodes[id]] == Orphaned(nodes, id)
    ensures nodes[id].parentId != id
  {
    if nodes[id].parentId == id {
      ParentDoesNotReachChild(nodes, id);
      ReachesSelf(ParentGraph(nodes), id);
    }
  }

  lemma ReaddParentCheck(nodes: map<string, Node>, id: string)
    requires id in nodes && Acyclic(ParentGraph(nodes)) && "" !in nodes && ParentOk(nodes, nodes[id].parentId)
    ensures CheckParent(Orphaned(nodes, id) - {id}, id, nodes[id].parentId).Pass? <==> ChainEnds(nodes, nodes[id].parentId, MaxGroupDepth)
  {
    var up := nodes[id].parentId;
    if up != "" {
      ReaddedMap(nodes, id);
      var gone := Orphaned(nodes, id) - {id};
      var s := ChildIds(nodes, id) + {id};
      forall x | x in s
        ensures !Reaches(ParentGraph(nodes), up, x)
      {
        ParentDoesNotReachChild(nodes, id);
        if x != id && Reaches(ParentGraph(nodes), up, x) {
          ReachesArc(ParentGraph(nodes), x, id);
          ReachesTrans(ParentGraph(nodes), up, x, id);
        }
      }
      ChainAgrees(nodes, gone, s, up, id, MaxGroupDepth);
      ChainAvoidsUnreached(nodes, up, id, MaxGroupDepth);
      assert gone[up].ty == nodes[up].ty;
    }
  }

  /** The edges left by a removal, together with the first `i` of the listed incident ones. */
  ghost function Rebuilt(edges: map<string, Edge>, id: string, es: seq<Edge>, i: nat): map<string, Edge>
    requires i <= |es|
  {
    map k | k in edges && (!Incident(edges[k], id) || edges[k] in es[..i]) :: edges[k]
  }

  lemma RebuildOne(edges: map<string, Edge>, id: string, es: seq<Edge>, i: nat)
    requires forall k :: k in edges ==> edges[k].id == k
    requires Enumerates(es, IncidentEdges(edges, id)) && i < |es|
    ensures es[i].id in edges && edges[es[i].id] == es[i]
    ensures es[i].id !in Rebuilt(edges, id, es, i)
    ensures Rebuilt(edges, id, es, i)[es[i].id := es[i]] == Rebuilt(edges, id, es, i + 1)
  {
    assert es[i] in es;
    assert es[..i + 1] == es[..i] + [es[i]];
    assert es[i] !in es[..i];
  }

  lemma ReaddEdges(table: Table, d: Doc, id: string, es: seq<Edge>, who: Stamp)
    requires WF(table, d) && Enumerates(es, IncidentEdges(d.edges, id))
    ensures ApplyAll(table, d.(edges := WithoutIncident(d.edges, id)), AddEdges(es), who) == Ok(d)
  {
    var docs := seq(|es| + 1, i requires 0 <= i <= |es| => d.(edges := Rebuilt(d.edges, id, es, i)));
    hide ApplyOp, ApplyAddEdge, WF, Rebuilt, IncidentEdges, WithoutIncident;
    EdgeIdsMatch(table, d);
    forall i | 0 <= i < |es|
      ensures ApplyOp(table, docs[i], AddEdges(es)[i], who) == Ok(docs[i + 1])
    {
      RebuildOne(d.edges, id, es, i);
      RebuiltPart(d.edges, id, es, i);
      ReaddEdge(table, d, docs[i], es[i].id, who);
      DispatchAddEdge(table, docs[i], es[i], who);
    }
    ApplyAllSteps(table, docs, AddEdges(es), who);
    RebuiltEnds(d.edges, id, es);
  }

  lemma EdgeIdsMatch(table: Table, d: Doc)
    requires WF(table, d)
    ensures forall k :: k in d.edges ==> d.edges[k].id == k
  {
  }

  lemma RebuiltPart(edges: map<string, Edge>, id: string, es: seq<Edge>, i: nat)
    requires i <= |es|
    ensures Rebuilt(edges, id, es, i).Keys <= edges.Keys
    ensures forall k :: k in Rebuilt(edges, id, es, i) ==> Rebuilt(edges, id, es, i)[k] == edges[k]
  {
  }

  lemma RebuiltEnds(edges: map<string, Edge>, id: string, es: seq<Edge>)
    requires Enumerates(es, IncidentEdges(edges, id))
    ensures Rebuilt(edges, id, es, 0) == WithoutIncident(edges, id) && Rebuilt(edges, id, es, |es|) == edges
  {
    assert es[..|es|] == es;
  }

  lemma DispatchAddEdge(table: Table, d: Doc, e: Edge, who: Stamp)
    ensures ApplyOp(table, d, AddEdge(e), who) == ApplyAddEdge(d, e, who)
  {
  }

  lemma DispatchAddNode(table: Table, d: Doc, n: Node, who: Stamp)
    ensures ApplyOp(table, d, AddNode(n), who) == ApplyAddNode(table, d, n)
  {
  }

  /** The node comes back, then its children, then its edges; or one of the first two is refused. */
  lemma UndoRemoveNode(table: Table, d: Doc, id: string, es: seq<Edge>, who: Stamp)
    requires WF(table, d) && id in d.nodes && Enumerates(es, IncidentEdges(d.edges, id))
    ensures var gone := d.(nodes := Orphaned(d.nodes, id) - {id}, edges := WithoutIncident(d.edges, id));
      ApplyAll(table, gone, [AddNode(d.nodes[id])] + SetParents(ChildrenOf(d.nodes, id), id) + AddEdges(es), who) == Ok(d)
      <==> Undoable(table, d, RemoveNode(id, None))
  {
    var n := d.nodes[id];
    var gone := d.(nodes := Orphaned(d.nodes, id) - {id}, edges := WithoutIncident(d.edges, id));
    var back := gone.(nodes := Orphaned(d.nodes, id));
    var adopt := SetParents(ChildrenOf(d.nodes, id), id);
    hide ApplyOp, ApplyAll, ApplyAddNode, Orphaned, WithoutIncident, ChildrenOf, Readoptable, ChainEnds, NodeOk;
    RectsOk(table, d);
    ReaddNode(table, d, id);
    DispatchAddNode(table, gone, n, who);
    ApplyAllOne(table, gone, AddNode(n), who);
    ApplyAllConcat(table, gone, [AddNode(n)], adopt, who);
    ApplyAllConcat(table, gone, [AddNode(n)] + adopt, AddEdges(es), who);
    Readopt(table, d, WithoutIncident(d.edges, id), id, who);
    assert back == d.(nodes := Orphaned(d.nodes, id), edges := WithoutIncident(d.edges, id));
    ReaddEdges(table, d, id, es, who);
  }

  // ---------------------------------------------------------------- the theorem

  /**
   * Undoing one accepted operation restores the document exactly when `Undoable` holds of the
   * document the operation met.
   */
  lemma UndoOne(table: Table, d: Doc, op: Op, who: Stamp, inv: Inverse, later: Stamp)
    requires WF(table, d) && Strict(table)
    requires ApplyOp(table, d, op, who).Ok? && IsInverse(d, op, inv)
    ensures ApplyAll(table, ApplyOp(table, d, op, who).value, InverseOps(inv), later) == Ok(d) <==> Undoable(table, d, op)
  {
    if ChangesOneNode(op) {
      UndoNodeChange(table, d, op, who, inv, later);
    } else if op.RemoveNode? {
      UndoRemoval(table, d, op, who, inv, later);
    } else {
      UndoStructure(table, d, op, who, inv, later);
    }
  }

  lemma UndoNodeChange(table: Table, d: Doc, op: Op, who: Stamp, inv: Inverse, later: Stamp)
    requires WF(table, d) && Strict(table) && ChangesOneNode(op)
    requires ApplyOp(table, d, op, who).Ok? && IsInverse(d, op, inv)
    ensures ApplyAll(table, ApplyOp(table, d, op, who).value, InverseOps(inv), later) == Ok(d) <==> Undoable(table, d, op)
  {
    hide WF, ApplyAll, ApplyAddNode, ApplyRemoveNode, ApplyMoveNode, ApplyResizeNode, ApplySetTitle, ApplySetSpec, ApplySetState,
      ApplyAddEdge, ApplyRemoveEdge, ApplyGroup, ApplyUngroup, ApplySetViewport, ApplySetSettings, ApplySetParent, MetaRestorable;
    var after := ApplyOp(table, d, op, who).value;
    AcceptedChangeHitsNode(table, d, op, who);
    NodeFacts(table, d, op.id);
    ApplyAllOne(table, after, inv.op, later);
    match op
    case MoveNode(id, x, y, delta) => UndoMoveNode(d, id, x, y, delta);
    case ResizeNode(id, w, h, keepAspect) => UndoResizeNode(d, id, w, h, keepAspect);
    case SetTitle(id, title) => UndoSetTitle(d, id, title);
    case SetSpec(id, patch, unset, meta, metaUnset) =>
      if |meta| > 0 || |metaUnset| > 0 {
        UndoSetMeta(table, d, id, patch, unset, meta, metaUnset);
      } else {
        assert meta == map[] && metaUnset == [];
        var lost :| Enumerates(lost, d.nodes[id].spec.Keys - (Without(d.nodes[id].spec, unset) + patch).Keys)
                    && inv == One(SetSpec(id, d.nodes[id].spec, lost, map[], []));
        UndoSetFields(table, d, id, patch, unset, lost);
      }
    case SetState(id, state, result, error) => UndoSetState(d, id, state, result, error);
  }

  lemma AcceptedChangeHitsNode(table: Table, d: Doc, op: Op, who: Stamp)
    requires ChangesOneNode(op) && ApplyOp(table, d, op, who).Ok?
    ensures op.id in d.nodes
  {
  }

  lemma UndoRemoval(table: Table, d: Doc, op: Op, who: Stamp, inv: Inverse, later: Stamp)
    requires WF(table, d) && op.RemoveNode?
    requires ApplyOp(table, d, op, who).Ok? && IsInverse(d, op, inv)
    ensures ApplyAll(table, ApplyOp(table, d, op, who).value, InverseOps(inv), later) == Ok(d) <==> Undoable(table, d, op)
  {
    hide WF, ApplyAll, Orphaned, WithoutIncident, ChildrenOf, IncidentEdges;
    var id := op.id;
    assert RemoveNodeInverse(d, id, inv);
    var es :| Enumerates(es, IncidentEdges(d.edges, id)) &&
      inv == Many([AddNode(d.nodes[id])] + SetParents(ChildrenOf(d.nodes, id), id) + AddEdges(es));
    UndoRemoveNode(table, d, id, es, later);
    assert Undoable(table, d, op) == Undoable(table, d, RemoveNode(id, None));
  }

  lemma UndoStructure(table: Table, d: Doc, op: Op, who: Stamp, inv: Inverse, later: Stamp)
    requires WF(table, d) && !ChangesOneNode(op) && !op.RemoveNode?
    requires ApplyOp(table, d, op, who).Ok? && IsInverse(d, op, inv)
    ensures ApplyAll(table, ApplyOp(table, d, op, who).value, InverseOps(inv), later) == Ok(d) <==> Undoable(table, d, op)
  {
    hide WF, ApplyAll, ApplyAddNode, ApplyRemoveNode, ApplyMoveNode, ApplyResizeNode, ApplySetTitle, ApplySetSpec, ApplySetState,
      ApplyAddEdge, ApplyRemoveEdge, ApplyGroup, ApplyUngroup, ApplySetViewport, ApplySetSettings, ApplySetParent,
      ChildrenOf, ReplacesNothing, Readoptable, ChainEnds;
    var after := ApplyOp(table, d, op, who).value;
    if inv.One? {
      ApplyAllOne(table, after, inv.op, later);
    }
    match op
    case AddNode(n) => UndoAddNode(table, d, n);
    case AddEdge(e) => UndoAddEdge(d, e, who);
    case RemoveEdge(id) => UndoRemovedEdge(table, d, id, later);
    case Group(ids, group, _, rect) => UndoGroup(table, d, ids, group, rect, later);
    case Ungroup(group, keep) =>
      if Default(keep, true) {
        UndoUngroup(table, d, group, later);
      } else {
        UndoDeletingUngroup(table, d, group, later);
      }
    case SetViewport(v) => UndoSetViewport(table, d, v);
    case SetSettings(patch) => UndoPatchedSettings(table, d, patch);
    case SetParent(id, parent) => UndoSetParent(table, d, id, parent);
    case _ =>
  }

  /** An ungroup that deletes the children is never undone: the group itself is not recorded. */
  lemma UndoDeletingUngroup(table: Table, d: Doc, group: string, who: Stamp)
    requires WF(table, d) && ApplyUngroup(d, group, false).Ok?
    ensures ApplyAll(table, ApplyUngroup(d, group, false).value, SetParents(ChildrenOf(d.nodes, group), group), who) != Ok(d)
  {
    hide WF, ApplyOp, WithoutIncident;
    var kids := ChildrenOf(d.nodes, group);
    var after := ApplyUngroup(d, group, false).value;
    var ops := SetParents(kids, group);
    if kids == [] {
      assert ops == [] && group !in after.nodes;
    } else {
      assert kids[0] in kids && kids[0] !in after.nodes;
      DispatchSetParent(table, after, kids[0], group, who);
      assert ops[..1] == [ops[0]];
      ApplyAllOne(table, after, ops[0], who);
      ApplyAllFails(table, after, ops, who, 1);
    }
  }

  lemma UndoRemovedEdge(table: Table, d: Doc, id: string, who: Stamp)
    requires WF(table, d) && ApplyRemoveEdge(d, id).Ok?
    ensures ApplyAddEdge(ApplyRemoveEdge(d, id).value, d.edges[id], who) == Ok(d)
  {
    UndoRemoveEdge(table, d, id, who);
  }

  lemma UndoSetViewport(table: Table, d: Doc, v: Viewport)
    requires WF(table, d) && ApplySetViewport(d, v).Ok?
    ensures ApplySetViewport(ApplySetViewport(d, v).value, d.viewport) == Ok(d)
  {
  }

  lemma UndoPatchedSettings(table: Table, d: Doc, patch: map<string, Value>)
    requires WF(table, d) && ApplySetSettings(d, patch).Ok?
    ensures ApplySetSettings(ApplySetSettings(d, patch).value, SettingsPatch(d.settings)) == Ok(d)
  {
    UndoSetSettings(d, patch);
  }

  /** Every operation of the batch meets a document in which it can be undone. */
  ghost predicate AllUndoable(table: Table, d: Doc, ops: seq<Op>, who: Stamp) {
    forall i :: 0 <= i < |ops| ==>
      (ApplyAll(table, d, ops[..i], who).Ok? ==> Undoable(table, ApplyAll(table, d, ops[..i], who).value, ops[i]))
  }

  lemma {:induction false} UndoableKeepsWellFormed(table: Table, d: Doc, ops: seq<Op>, who: Stamp)
    requires WF(table, d) && StampOk(who)
    requires ApplyAll(table, d, ops, who).Ok? && AllUndoable(table, d, ops, who)
    ensures WF(table, ApplyAll(table, d, ops, who).value)
    decreases |ops|
  {
    hide WF, ApplyOp;
    if ops != [] {
      var front := ops[..|ops| - 1];
      assert forall i :: 0 <= i <= |front| ==> front[..i] == ops[..i];
      UndoableKeepsWellFormed(table, d, front, who);
      assert Undoable(table, ApplyAll(table, d, ops[..|ops| - 1], who).value, ops[|ops| - 1]);
      OpKeepsWellFormed(table, ApplyAll(table, d, front, who).value, ops[|ops| - 1], who);
    }
  }

  /**
   * Undo is exact: for an accepted batch of undoable operations, the recorded inverses applied from
   * the last operation to the first are all accepted and give back the very same document.
   */
  lemma {:induction false} UndoRestores(table: Table, d: Doc, ops: seq<Op>, who: Stamp, inverse: seq<Inverse>,
                                        later: Stamp)
    requires WF(table, d) && Strict(table) && StampOk(who)
    requires ApplyAll(table, d, ops, who).Ok? && Recorded(table, d, ops, who, inverse)
    requires AllUndoable(table, d, ops, who)
    ensures ApplyAll(table, ApplyAll(table, d, ops, who).value, UndoOps(inverse), later) == Ok(d)
    decreases |ops|
  {
    hide WF, ApplyOp, IsInverse, Undoable;
    if ops != [] {
      var n := |ops| - 1;
      var front := ops[..n];
      var mid := ApplyAll(table, d, front, who).value;
      var end := ApplyAll(table, d, ops, who).value;
      forall i | 0 <= i < n
        ensures front[..i] == ops[..i]
      {
      }
      UndoableKeepsWellFormed(table, d, front, who);
      UndoOne(table, mid, ops[n], who, inverse[n], later);
      UndoRestores(table, d, front, who, inverse[..n], later);
      ApplyAllConcat(table, end, InverseOps(inverse[n]), UndoOps(inverse[..n]), later);
    }
  }
}
