/** Why operations are refused: which error a caller gets when several things are wrong at once. */
module Refusals {
  import opened Outcomes
  import opened Documents
  import opened Schemas
  import opened Operations
  import opened WellFormed
  import opened Canvas
  import opened Batches
  import opened Digraphs
  import opened Regrouping
  import opened Effects

  /** The error of a parent that will not do: a missing one is told apart, the node itself aside. */
  function ParentError(nodes: map<string, Node>, node: string, parent: string): Code {
    if parent !in nodes && parent != node then NotFound else InvalidSpec
  }

  lemma ParentRefused(nodes: map<string, Node>, node: string, parent: string)
    requires !MayGoUnder(nodes, node, parent)
    ensures CheckParent(nodes, node, parent) == Fail(ParentError(nodes, node, parent))
  {
    hide MayGoUnder, ChainAvoids;
    ParentCheckExactly(nodes, node, parent);
  }

  /** A node is refused for its ID, its type, its geometry, its title, the number of nodes, its configuration, its state or its parent, in this order. */
  lemma AddNodeRefused(table: Table, d: Doc, n: Node, who: Stamp)
    requires ApplyOp(table, d, AddNode(n), who).Err?
    ensures ApplyOp(table, d, AddNode(n), who).code
         == if !ValidId(n.id) then InvalidId
            else if n.id in d.nodes then Conflict
            else if !ValidNodeTypeId(n.ty) then InvalidNodeType
            else if !InRange(n.rect) then InvalidGeometry
            else if |n.title| > 200 then InvalidSpec
            else if |d.nodes| >= 200000 then PayloadTooLarge
            else if n.ty !in table then InvalidNodeType
            else if table[n.ty].verdict(n.spec).Rejected? then table[n.ty].verdict(n.spec).code
            else if table[n.ty].verdict(n.spec) == MissingRequired then InvalidSpec
            else if n.state !in {"", "idle", "pending", "running", "succeeded", "failed"} then InvalidSpec
            else ParentError(d.nodes, n.id, n.parentId)
  {
    hide CheckParent, ValidId, ValidNodeTypeId, MayGoUnder, IsPluginType;
    if !MayGoUnder(d.nodes, n.id, n.parentId) {
      ParentRefused(d.nodes, n.id, n.parentId);
    }
    ParentCheckExactly(d.nodes, n.id, n.parentId);
    if ValidNodeTypeId(n.ty) {
      PluginTypesAreInvalid(n.ty);
    }
  }

  lemma SetParentRefused(table: Table, d: Doc, id: string, parent: string, who: Stamp)
    requires ApplyOp(table, d, SetParent(id, parent), who).Err?
    ensures ApplyOp(table, d, SetParent(id, parent), who).code
         == if id !in d.nodes then NotFound
            else if !MayGoUnder(d.nodes, id, parent) then ParentError(d.nodes, id, parent)
            else InvalidGeometry
  {
    hide CheckParent, MayGoUnder;
    ParentCheckExactly(d.nodes, id, parent);
    if !MayGoUnder(d.nodes, id, parent) {
      ParentRefused(d.nodes, id, parent);
    }
  }

  /** An edge is refused for its ID, the number of edges, or a missing end; every other reason, a cycle included, is one error. */
  lemma AddEdgeRefused(table: Table, d: Doc, e: Edge, who: Stamp)
    requires ApplyOp(table, d, AddEdge(e), who).Err?
    ensures ApplyOp(table, d, AddEdge(e), who).code
         == if !ValidId(e.id) then InvalidId
            else if e.id in d.edges then Conflict
            else if |d.edges| >= 400000 then PayloadTooLarge
            else if e.from.nodeId !in d.nodes || e.to.nodeId !in d.nodes then NotFound
            else InvalidSpec
  {
    hide ValidId, FindPort, WithoutReplaced, SearchGraph;
  }

  /** A configuration change is refused for a field it may not name, and else by the verdict on the whole. */
  lemma SetSpecRefused(table: Table, d: Doc, id: string, patch: map<string, Value>, unset: seq<string>, next: map<string, Value>,
                       who: Stamp)
    requires id in d.nodes && Patched(d.nodes[id].spec, unset, patch, next) && (patch != map[] || unset != [])
    requires ApplyOp(table, d, SetSpec(id, patch, unset, map[], []), who).Err?
    ensures var ty := d.nodes[id].ty;
      ApplyOp(table, d, SetSpec(id, patch, unset, map[], []), who).code
         == if ValidNodeTypeId(ty) && ty in table && (forall k :: k in patch ==> FieldOf(table, ty, k))
               && (forall k :: k in unset ==> FieldOf(table, ty, k)) && table[ty].verdict(next).Rejected?
            then table[ty].verdict(next).code else InvalidSpec
  {
    hide ApplyOp, PatchedSpec, PatchedMeta;
    var n := d.nodes[id];
    ConfiguresSpec(table, n, patch, unset);
    PatchedSpecRefused(table, n.ty, n.spec, patch, unset, next);
    ChangeOfConfiguration(table, d, id, patch, unset, map[], [], who);
  }

  lemma PatchedSpecRefused(table: Table, ty: string, spec: map<string, Value>, patch: map<string, Value>, unset: seq<string>,
                           next: map<string, Value>)
    requires Patched(spec, unset, patch, next)
    ensures var r := PatchedSpec(table, ty, spec, patch, unset);
      r.Err? ==>
        r == Err(if ValidNodeTypeId(ty) && ty in table && (forall k :: k in patch ==> FieldOf(table, ty, k))
                    && (forall k :: k in unset ==> FieldOf(table, ty, k)) && table[ty].verdict(next).Rejected?
                 then table[ty].verdict(next).code else InvalidSpec)
  {
    hide ValidNodeTypeId;
    WithoutThenOver(spec, unset, patch, next);
    assert forall k :: SpecFieldAllowed(table, ty, k) <==> FieldOf(table, ty, k);
    hide FieldOf, SpecFieldAllowed;
  }

  /** A meta change is refused for its keys and values, and else for the number of entries. */
  lemma SetMetaRefused(table: Table, d: Doc, id: string, patch: map<string, Value>, unset: seq<string>, meta: map<string, Value>,
                       metaUnset: seq<string>, next: map<string, Value>, who: Stamp)
    requires id in d.nodes && Patched(d.nodes[id].meta, metaUnset, meta, next) && (meta != map[] || metaUnset != [])
    requires ApplyOp(table, d, SetSpec(id, patch, unset, meta, metaUnset), who).Err?
    ensures ApplyOp(table, d, SetSpec(id, patch, unset, meta, metaUnset), who).code
         == if (forall k :: k in meta ==> MetaKey(k) && meta[k] != Null) && (forall k :: k in metaUnset ==> MetaKey(k))
            then PayloadTooLarge else InvalidSpec
  {
    hide ApplyOp, PatchedSpec, PatchedMeta;
    var n := d.nodes[id];
    SomeKey(meta);
    PatchedMetaRefused(n.meta, meta, metaUnset, next);
    ChangeOfConfiguration(table, d, id, patch, unset, meta, metaUnset, who);
  }

  lemma PatchedMetaRefused(before: map<string, Value>, meta: map<string, Value>, metaUnset: seq<string>, next: map<string, Value>)
    requires Patched(before, metaUnset, meta, next)
    ensures var r := PatchedMeta(before, meta, metaUnset);
      r.Err? ==>
        r == Err(if (forall k :: k in meta ==> MetaKey(k) && meta[k] != Null) && (forall k :: k in metaUnset ==> MetaKey(k))
                 then PayloadTooLarge else InvalidSpec)
  {
    hide MetaKeyOk, MetaKey, Without, Patched;
    WithoutThenOver(before, metaUnset, meta, next);
    ProperKeys(meta, metaUnset);
  }

  // ---------------------------------------------------------------- lists

  predicate Adoptable(nodes: map<string, Node>, k: string) {
    k in nodes && nodes[k].ty != "group"
  }

  /** A group is refused for an empty list, for its own ID, and else for the first listed node that will not do. */
  lemma GroupRefused(table: Table, d: Doc, ids: seq<string>, group: string, title: string, given: Option<Rect>, i: nat, who: Stamp)
    requires WF(table, d) && i < |ids| && group in d.nodes && d.nodes[group].ty == "group"
    requires forall j :: 0 <= j < i ==> Adoptable(d.nodes, ids[j]) && MayGoUnder(d.nodes, ids[j], group)
    requires !(Adoptable(d.nodes, ids[i]) && MayGoUnder(d.nodes, ids[i], group))
    ensures ApplyOp(table, d, Group(ids, group, title, given), who) == Err(if ids[i] !in d.nodes then NotFound else InvalidSpec)
  {
    hide Adopt, MayGoUnder, ApplyOp, ApplyGroup, NodesOk, ParentsOk, EdgesOk, SingleInputs, ParentGraph, FlowGraph;
    NoEmptyId(table, d.nodes);
    AdoptedExactly(d.nodes, ids[..i], group);
    AdoptRefused(d.nodes, ids, group, i);
    AdoptFails(d.nodes, ids, group, i + 1);
    RefusedAdoption(d, ids, group, given);
    GroupIsApplied(table, d, ids, group, title, given, who);
  }

  lemma NoGroupWithoutMembers(table: Table, d: Doc, ids: seq<string>, group: string, title: string, given: Option<Rect>, who: Stamp)
    ensures ids == [] ==> ApplyOp(table, d, Group(ids, group, title, given), who) == Err(InvalidSpec)
    ensures ids != [] && group == "" ==> ApplyOp(table, d, Group(ids, group, title, given), who) == Err(InvalidId)
    ensures ids != [] && group != "" && (group !in d.nodes || d.nodes[group].ty != "group") ==>
      ApplyOp(table, d, Group(ids, group, title, given), who) == Err(NotFound)
  {
    hide Adopt;
  }

  lemma AdoptRefused(nodes: map<string, Node>, ids: seq<string>, group: string, i: nat)
    requires "" !in nodes && Acyclic(ParentGraph(nodes)) && ParentsOk(nodes) && group in nodes && nodes[group].ty == "group"
    requires i < |ids| && Adopt(nodes, ids[..i], group).Ok? && !(Adoptable(nodes, ids[i]) && MayGoUnder(nodes, ids[i], group))
    requires forall j :: 0 <= j < i ==> Adoptable(nodes, ids[j])
    ensures Adopt(nodes, ids[..i + 1], group) == Err(if ids[i] !in nodes then NotFound else InvalidSpec)
  {
    hide Acyclic, ParentGraph, ParentsOk, MayGoUnder, Regrouped, ChainAvoids;
    var done, id := ids[..i], ids[i];
    assert ids[..i + 1][..i] == done && ids[..i + 1][i] == id;
    AdoptIs(nodes, done, group);
    RegroupedIs(nodes, done, group);
    if Adoptable(nodes, id) {
      assert forall k :: k in done ==> Adoptable(nodes, k);
      SameCheckLater(nodes, done, group, id);
    }
  }

  lemma RefusedAdoption(d: Doc, ids: seq<string>, group: string, given: Option<Rect>)
    requires ids != [] && group != "" && group in d.nodes && d.nodes[group].ty == "group" && Adopt(d.nodes, ids, group).Err?
    ensures ApplyGroup(d, ids, group, given) == Err(Adopt(d.nodes, ids, group).code)
  {
    hide Adopt;
  }

  /** The first operation that is refused decides for its batch. */
  lemma BatchRefused(table: Table, d: Doc, ops: seq<Op>, who: Stamp, docs: seq<Doc>, i: nat)
    requires i < |ops| <= 1000 && Unfolds(table, d, ops[..i], who, docs) && ApplyOp(table, docs[i], ops[i], who).Err?
    ensures BatchOutcome(table, d, ops, who) == Err(ApplyOp(table, docs[i], ops[i], who).code)
  {
    hide ApplyOp, ApplyAll;
    ApplyAllSteps(table, docs, ops[..i], who);
    ApplyAllSnoc(table, d, ops[..i], ops[i], who);
    assert ops[..i] + [ops[i]] == ops[..i + 1];
    ApplyAllFails(table, d, ops, who, i + 1);
  }
}
