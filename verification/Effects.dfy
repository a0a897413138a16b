/**
 * What each kind of operation does, field by field, and exactly when it is accepted. The limits stand here as numbers
 * and the rules as facts about documents, so that the definitions of the operations are checked against them.
 */
module Effects {
  import opened Outcomes
  import opened Ordering
  import opened Digraphs
  import opened Documents
  import opened Schemas
  import opened Operations
  import opened WellFormed
  import opened CycleCheck
  import opened Batches
  import opened Regrouping

  predicate PlaceInRange(x: real, y: real) {
    -10000000.0 <= x <= 10000000.0 && -10000000.0 <= y <= 10000000.0
  }

  predicate InRange(r: Rect) {
    PlaceInRange(r.x, r.y) && 16.0 <= r.w <= 20000.0 && 16.0 <= r.h <= 20000.0
  }

  /** The document with one node changed. */
  function With(d: Doc, id: string, n: Node): Doc {
    d.(nodes := d.nodes[id := n])
  }

  // ---------------------------------------------------------------- parents

  /** The groups met on the way up from `start`, `start` included; a missing one ends the way. */
  ghost predicate Chain(nodes: map<string, Node>, start: string, c: seq<string>)
    decreases |c|
  {
    if start == "" then c == []
    else c != [] && c[0] == start && (if start in nodes then Chain(nodes, nodes[start].parentId, c[1..]) else |c| == 1)
  }

  /** The way up from `start` has at most `most` stations, and `node` is not among them. */
  ghost predicate ShortChain(nodes: map<string, Node>, start: string, node: string, most: nat) {
    exists c :: Chain(nodes, start, c) && |c| <= most && node !in c
  }

  lemma {:induction false} ChainAvoidsExactly(nodes: map<string, Node>, start: string, node: string, fuel: nat)
    ensures ChainAvoids(nodes, start, node, fuel) <==> ShortChain(nodes, start, node, fuel)
    decreases fuel
  {
    if start == "" {
      assert Chain(nodes, start, []);
    } else if fuel > 0 && start in nodes {
      ChainAvoidsExactly(nodes, nodes[start].parentId, node, fuel - 1);
      if ChainAvoids(nodes, start, node, fuel) {
        var c :| Chain(nodes, nodes[start].parentId, c) && |c| <= fuel - 1 && node !in c;
        assert ([start] + c)[1..] == c;
        assert Chain(nodes, start, [start] + c);
      }
      if ShortChain(nodes, start, node, fuel) {
        var c :| Chain(nodes, start, c) && |c| <= fuel && node !in c;
        assert c[0] == start && forall x :: x in c[1..] ==> x in c;
        assert Chain(nodes, nodes[start].parentId, c[1..]);
      }
    } else if fuel > 0 {
      assert Chain(nodes, start, [start]);
    }
  }

  /** A node may be put under nothing, or under another node that is a group with at most eight groups up to the top, itself included. */
  ghost predicate MayGoUnder(nodes: map<string, Node>, node: string, parent: string) {
    parent == "" || (parent != node && parent in nodes && nodes[parent].ty == "group" && ShortChain(nodes, parent, node, 8))
  }

  lemma ParentCheckExactly(nodes: map<string, Node>, node: string, parent: string)
    ensures CheckParent(nodes, node, parent).Pass? <==> MayGoUnder(nodes, node, parent)
    ensures parent != "" && parent != node && parent !in nodes ==> CheckParent(nodes, node, parent) == Fail(NotFound)
  {
    ChainAvoidsExactly(nodes, parent, node, MaxGroupDepth);
  }

  lemma SetParentEffect(table: Table, d: Doc, id: string, parent: string, who: Stamp)
    ensures var r := ApplyOp(table, d, SetParent(id, parent), who);
      && (r.Ok? <==> id in d.nodes && MayGoUnder(d.nodes, id, parent) && (parent == "" || InRange(d.nodes[id].rect)))
      && (r.Ok? ==> r.value == With(d, id, d.nodes[id].(parentId := parent)))
      && (id !in d.nodes ==> r == Err(NotFound))
  {
    hide CheckParent, MayGoUnder;
    ParentCheckExactly(d.nodes, id, parent);
  }

  // ---------------------------------------------------------------- nodes

  /** A new node is stored as given, with its schema's ports, and idle if it names no state. */
  lemma AddNodeEffect(table: Table, d: Doc, n: Node, who: Stamp)
    ensures var r := ApplyOp(table, d, AddNode(n), who);
      && (r.Ok? <==>
            && ValidId(n.id) && n.id !in d.nodes && |d.nodes| < 200000
            && ValidNodeTypeId(n.ty) && n.ty in table && table[n.ty].verdict(n.spec) == Accepted
            && InRange(n.rect) && |n.title| <= 200
            && n.state in {"", "idle", "pending", "running", "succeeded", "failed"}
            && MayGoUnder(d.nodes, n.id, n.parentId))
      && (r.Ok? ==> r.value == With(d, n.id, n.(ports := table[n.ty].ports, state := if n.state == "" then "idle" else n.state)))
      && (ValidId(n.id) && n.id in d.nodes ==> r == Err(Conflict))
      && (!ValidId(n.id) ==> r == Err(InvalidId))
  {
    hide CheckParent, ValidId, ValidNodeTypeId, ShortChain;
    ParentCheckExactly(d.nodes, n.id, n.parentId);
  }

  predicate AtNode(e: Edge, id: string) {
    e.from.nodeId == id || e.to.nodeId == id
  }

  /** Removing a node takes its edges along and moves its children to the top; without cascade it must have no edge. */
  lemma RemoveNodeEffect(table: Table, d: Doc, id: string, cascade: Option<bool>, who: Stamp)
    ensures var r := ApplyOp(table, d, RemoveNode(id, cascade), who);
      && (r.Ok? <==> id in d.nodes && (cascade != Some(false) || forall k :: k in d.edges ==> !AtNode(d.edges[k], id)))
      && (r.Ok? ==>
            && r.value.viewport == d.viewport && r.value.settings == d.settings
            && (forall k :: k in r.value.nodes <==> k in d.nodes && k != id)
            && (forall k :: k in r.value.nodes ==>
                  r.value.nodes[k] == if d.nodes[k].parentId == id then d.nodes[k].(parentId := "") else d.nodes[k])
            && (forall k :: k in r.value.edges <==> k in d.edges && !AtNode(d.edges[k], id))
            && (forall k :: k in r.value.edges ==> r.value.edges[k] == d.edges[k]))
      && (id !in d.nodes ==> r == Err(NotFound))
      && (id in d.nodes && r.Err? ==> r == Err(Conflict))
  {
    NoIncidentEdges(d.edges, id);
    hide IncidentEdges;
  }

  lemma NoIncidentEdges(edges: map<string, Edge>, id: string)
    ensures IncidentEdges(edges, id) == {} <==> forall k :: k in edges ==> !AtNode(edges[k], id)
  {
    if k :| k in edges && AtNode(edges[k], id) {
      assert edges[k] in IncidentEdges(edges, id);
    }
  }

  /** A move goes to a place, or by an offset; both the numbers given and the new rectangle must be in range. */
  lemma MoveEffect(table: Table, d: Doc, id: string, x: real, y: real, delta: bool, who: Stamp)
    ensures var r := ApplyOp(table, d, MoveNode(id, x, y, delta), who);
      if id !in d.nodes then r == Err(NotFound)
      else
        var was := d.nodes[id].rect;
        var now := if delta then Rect(was.x + x, was.y + y, was.w, was.h) else Rect(x, y, was.w, was.h);
        if PlaceInRange(x, y) && InRange(now) then r == Ok(With(d, id, d.nodes[id].(rect := now))) else r == Err(InvalidGeometry)
  {
    if id in d.nodes {
      var was := d.nodes[id].rect;
      assert MovedRect(was, x, y, delta) == if delta then Rect(was.x + x, was.y + y, was.w, was.h) else Rect(x, y, was.w, was.h);
      hide MovedRect;
    }
  }

  /** A resize sets the size, or the width with the height in proportion; the new rectangle must be in range. */
  lemma ResizeEffect(table: Table, d: Doc, id: string, w: real, h: real, keepAspect: bool, who: Stamp)
    ensures var r := ApplyOp(table, d, ResizeNode(id, w, h, keepAspect), who);
      if id !in d.nodes then r == Err(NotFound)
      else
        var was := d.nodes[id].rect;
        var scaled := keepAspect && was.w > 0.0 && was.h > 0.0 && w > 0.0;
        var now := Rect(was.x, was.y, w, if scaled then was.h * (w / was.w) else h);
        if InRange(now) then r == Ok(With(d, id, d.nodes[id].(rect := now))) else r == Err(InvalidGeometry)
  {
    hide ResizedRect, ApplyOp;
    if id in d.nodes {
      ResizedRectIs(d.nodes[id].rect, w, h, keepAspect);
    }
    ResizeIsApplied(table, d, id, w, h, keepAspect, who);
  }

  lemma ResizedRectIs(was: Rect, w: real, h: real, keepAspect: bool)
    ensures ResizedRect(was, w, h, keepAspect)
         == Rect(was.x, was.y, w, if keepAspect && was.w > 0.0 && was.h > 0.0 && w > 0.0 then was.h * (w / was.w) else h)
  {
  }

  lemma ResizeIsApplied(table: Table, d: Doc, id: string, w: real, h: real, keepAspect: bool, who: Stamp)
    ensures ApplyOp(table, d, ResizeNode(id, w, h, keepAspect), who)
         == if id !in d.nodes then Err(NotFound) else PutNode(d, id, ResizedNode(d.nodes[id], w, h, keepAspect))
  {
    hide ResizedNode;
  }

  /** A title of at most 200 bytes replaces the old one, unless it is empty. */
  lemma SetTitleEffect(table: Table, d: Doc, id: string, title: string, who: Stamp)
    ensures var r := ApplyOp(table, d, SetTitle(id, title), who);
      if id !in d.nodes then r == Err(NotFound)
      else if |title| > 200 then r == Err(InvalidSpec)
      else r == Ok(if title == "" then d else With(d, id, d.nodes[id].(title := title)))
  {
    assert id in d.nodes ==> d.nodes[id := d.nodes[id].(title := d.nodes[id].title)] == d.nodes;
  }

  /** A state replaces the old one; a result or an error is replaced if one is given, and idle clears both. */
  lemma SetStateEffect(table: Table, d: Doc, id: string, state: string, result: Option<NodeResult>, error: Option<NodeError>,
                       who: Stamp)
    ensures var r := ApplyOp(table, d, SetState(id, state, result, error), who);
      if id !in d.nodes then r == Err(NotFound)
      else if state == "idle" then r == Ok(With(d, id, d.nodes[id].(state := "idle", result := None, error := None)))
      else if state in {"pending", "running", "succeeded", "failed"} then
        r == Ok(With(d, id, d.nodes[id].(state := state, result := if result == None then d.nodes[id].result else result,
                                         error := if error == None then d.nodes[id].error else error)))
      else r == Err(InvalidSpec)
  {
  }

  // ---------------------------------------------------------------- configuration

  /** `after` is `before` with the unset keys taken out and the patch written over it. */
  ghost predicate Patched(before: map<string, Value>, unset: seq<string>, patch: map<string, Value>, after: map<string, Value>) {
    && (forall k :: k in after <==> k in patch || (k in before && k !in unset))
    && (forall k :: k in after ==> after[k] == if k in patch then patch[k] else before[k])
  }

  predicate FieldOf(table: Table, ty: string, k: string) {
    ValidNodeTypeId(ty) && ty in table && (k in table[ty].fields || (ty == "prompt" && k == "text"))
  }

  /** A configuration change names fields of the schema only, and is kept unless the verdict on the whole rejects it. */
  lemma SetSpecEffect(table: Table, d: Doc, id: string, patch: map<string, Value>, unset: seq<string>, next: map<string, Value>,
                      who: Stamp)
    requires id in d.nodes && Patched(d.nodes[id].spec, unset, patch, next) && (patch != map[] || unset != [])
    ensures var r := ApplyOp(table, d, SetSpec(id, patch, unset, map[], []), who);
      var ty := d.nodes[id].ty;
      && (r.Ok? <==>
            && ValidNodeTypeId(ty) && ty in table && !table[ty].verdict(next).Rejected?
            && (forall k :: k in patch ==> FieldOf(table, ty, k)) && (forall k :: k in unset ==> FieldOf(table, ty, k)))
      && (r.Ok? ==> r.value == With(d, id, d.nodes[id].(spec := next)))
  {
    hide ApplyOp, PatchedSpec, PatchedMeta;
    var n := d.nodes[id];
    ConfiguresSpec(table, n, patch, unset);
    PatchedSpecExactly(table, n.ty, n.spec, patch, unset, next);
    ChangeOfConfiguration(table, d, id, patch, unset, map[], [], who);
  }

  lemma ChangeOfConfiguration(table: Table, d: Doc, id: string, patch: map<string, Value>, unset: seq<string>,
                              meta: map<string, Value>, metaUnset: seq<string>, who: Stamp)
    requires id in d.nodes
    ensures ApplyOp(table, d, SetSpec(id, patch, unset, meta, metaUnset), who)
         == PutNode(d, id, ConfiguredNode(table, d.nodes[id], patch, unset, meta, metaUnset))
  {
    hide ConfiguredNode;
  }

  lemma ConfiguresSpec(table: Table, n: Node, patch: map<string, Value>, unset: seq<string>)
    requires patch != map[] || unset != []
    ensures var r := ConfiguredNode(table, n, patch, unset, map[], []); var next := PatchedSpec(table, n.ty, n.spec, patch, unset);
            if next.Err? then r == Err(next.code) else r == Ok(n.(spec := next.value))
  {
    hide PatchedSpec, PatchedMeta;
    SomeKey(patch);
    SomeKey(map[]);
  }

  lemma PatchedSpecExactly(table: Table, ty: string, spec: map<string, Value>, patch: map<string, Value>, unset: seq<string>,
                           next: map<string, Value>)
    requires Patched(spec, unset, patch, next)
    ensures var r := PatchedSpec(table, ty, spec, patch, unset);
      && (r.Ok? <==>
            && ValidNodeTypeId(ty) && ty in table && !table[ty].verdict(next).Rejected?
            && (forall k :: k in patch ==> FieldOf(table, ty, k)) && (forall k :: k in unset ==> FieldOf(table, ty, k)))
      && (r.Ok? ==> r.value == next)
  {
    hide ValidNodeTypeId;
    WithoutThenOver(spec, unset, patch, next);
    assert forall k :: SpecFieldAllowed(table, ty, k) <==> FieldOf(table, ty, k);
    hide FieldOf, SpecFieldAllowed;
  }

  lemma SomeKey(m: map<string, Value>)
    ensures m == map[] <==> |m| == 0
  {
  }

  predicate MetaKey(k: string) {
    1 <= |k| <= 128 && k != "__proto__" && k != "constructor" && k != "prototype"
  }

  /** A meta change leaves the configuration alone, whatever else is given; it needs proper keys, no null and at most 64 entries. */
  lemma SetMetaEffect(table: Table, d: Doc, id: string, patch: map<string, Value>, unset: seq<string>, meta: map<string, Value>,
                      metaUnset: seq<string>, next: map<string, Value>, who: Stamp)
    requires id in d.nodes && Patched(d.nodes[id].meta, metaUnset, meta, next) && (meta != map[] || metaUnset != [])
    ensures var r := ApplyOp(table, d, SetSpec(id, patch, unset, meta, metaUnset), who);
      && (r.Ok? <==> (forall k :: k in meta ==> MetaKey(k) && meta[k] != Null) && (forall k :: k in metaUnset ==> MetaKey(k)) && |next| <= 64)
      && (r.Ok? ==> r.value == With(d, id, d.nodes[id].(meta := next)))
  {
    hide ApplyOp, PatchedSpec, PatchedMeta;
    var n := d.nodes[id];
    SomeKey(meta);
    PatchedMetaExactly(n.meta, meta, metaUnset, next);
    ChangeOfConfiguration(table, d, id, patch, unset, meta, metaUnset, who);
  }

  /** The keys a meta change is recorded to have dropped: those it unset that were there, each once. */
  lemma {:induction false} RemovedExactly(m: map<string, Value>, keys: seq<string>)
    ensures Distinct(Removed(m, keys)) && forall k :: k in Removed(m, keys) <==> k in m && k in keys
    decreases |keys|
  {
    if keys != [] {
      var n := |keys| - 1;
      RemovedExactly(m, keys[..n]);
      assert keys == keys[..n] + [keys[n]];
    }
  }

  lemma WithoutThenOver(before: map<string, Value>, unset: seq<string>, patch: map<string, Value>, after: map<string, Value>)
    requires Patched(before, unset, patch, after)
    ensures after == Without(before, unset) + patch
  {
  }

  lemma PatchedMetaExactly(before: map<string, Value>, meta: map<string, Value>, metaUnset: seq<string>, next: map<string, Value>)
    requires Patched(before, metaUnset, meta, next)
    ensures var r := PatchedMeta(before, meta, metaUnset);
      && (r.Ok? <==> (forall k :: k in meta ==> MetaKey(k) && meta[k] != Null) && (forall k :: k in metaUnset ==> MetaKey(k)) && |next| <= 64)
      && (r.Ok? ==> r.value == next)
  {
    hide MetaKeyOk, MetaKey, Without, Patched;
    WithoutThenOver(before, metaUnset, meta, next);
    ProperKeys(meta, metaUnset);
  }

  lemma ProperKeys(meta: map<string, Value>, metaUnset: seq<string>)
    ensures ((exists i :: 0 <= i < |metaUnset| && !MetaKeyOk(metaUnset[i])) || (exists k :: k in meta && (!MetaKeyOk(k) || meta[k].Null?)))
       <==> !((forall k :: k in meta ==> MetaKey(k) && meta[k] != Null) && (forall k :: k in metaUnset ==> MetaKey(k)))
  {
    forall k
      ensures MetaKeyOk(k) <==> MetaKey(k)
    {
      SameMetaKey(k);
    }
    hide MetaKeyOk, MetaKey;
  }

  lemma SameMetaKey(k: string)
    ensures MetaKeyOk(k) <==> MetaKey(k)
  {
  }

  /** A change that names nothing, or a node that is not there, is refused. */
  lemma EmptyChange(table: Table, d: Doc, id: string, patch: map<string, Value>, unset: seq<string>, meta: map<string, Value>,
                    metaUnset: seq<string>, who: Stamp)
    ensures id !in d.nodes ==> ApplyOp(table, d, SetSpec(id, patch, unset, meta, metaUnset), who) == Err(NotFound)
    ensures id in d.nodes ==> ApplyOp(table, d, SetSpec(id, map[], [], map[], []), who) == Err(InvalidSpec)
  {
  }

  // ---------------------------------------------------------------- edges

  /** The first port of a list with this ID. */
  ghost predicate IsPort(ports: seq<Port>, id: string, p: Port) {
    exists i :: 0 <= i < |ports| && ports[i] == p && p.id == id && forall j :: 0 <= j < i ==> ports[j].id != id
  }

  lemma {:induction false} FindPortExactly(ports: seq<Port>, id: string, p: Port)
    ensures FindPort(ports, id) == Some(p) <==> IsPort(ports, id, p)
  {
    if ports != [] {
      FindPortExactly(ports[1..], id, p);
      if ports[0].id == id {
        assert ports[0] == p ==> IsPort(ports, id, p);
      } else {
        if IsPort(ports[1..], id, p) {
          var i :| 0 <= i < |ports[1..]| && ports[1..][i] == p && p.id == id && forall j :: 0 <= j < i ==> ports[1..][j].id != id;
          assert ports[i + 1] == p && forall j :: 0 < j < i + 1 ==> ports[j].id == ports[1..][j - 1].id;
        }
        if IsPort(ports, id, p) {
          var i :| 0 <= i < |ports| && ports[i] == p && p.id == id && forall j :: 0 <= j < i ==> ports[j].id != id;
          assert ports[1..][i - 1] == p && forall j :: 0 <= j < i - 1 ==> ports[1..][j].id == ports[j + 1].id;
        }
      }
    }
  }

  /** An edge may join an output of one node to an input of another, neither of them a group, if all kinds are one. */
  ghost predicate Joins(nodes: map<string, Node>, e: Edge, out: Port, inp: Port) {
    && e.from.nodeId in nodes && e.to.nodeId in nodes && e.from.nodeId != e.to.nodeId
    && nodes[e.from.nodeId].ty != "group" && nodes[e.to.nodeId].ty != "group"
    && IsPort(nodes[e.from.nodeId].ports.outputs, e.from.portId, out) && IsPort(nodes[e.to.nodeId].ports.inputs, e.to.portId, inp)
    && out.kind == inp.kind && (e.kind == "" || e.kind == out.kind)
    && out.kind in {"text", "image", "video", "audio", "file", "json"}
  }

  /** What remains beside a new edge: all, or on a single input all but the edges already into it. */
  ghost predicate Remain(edges: map<string, Edge>, e: Edge, inp: Port, rest: map<string, Edge>) {
    && (forall k :: k in rest <==> k in edges && (inp.multiple || edges[k].to != e.to))
    && (forall k :: k in rest ==> rest[k] == edges[k])
  }

  lemma CheckEdgeExactly(d: Doc, e: Edge)
    ensures CheckEdge(d, e).Pass?
       <==> ValidId(e.id) && e.id !in d.edges && |d.edges| < 400000 && exists out, inp :: Joins(d.nodes, e, out, inp)
  {
    hide ValidId;
    if e.from.nodeId in d.nodes && e.to.nodeId in d.nodes {
      var outs, ins := d.nodes[e.from.nodeId].ports.outputs, d.nodes[e.to.nodeId].ports.inputs;
      forall p
        ensures FindPort(outs, e.from.portId) == Some(p) <==> IsPort(outs, e.from.portId, p)
        ensures FindPort(ins, e.to.portId) == Some(p) <==> IsPort(ins, e.to.portId, p)
      {
        FindPortExactly(outs, e.from.portId, p);
        FindPortExactly(ins, e.to.portId, p);
      }
      hide IsPort, FindPort;
      if CheckEdge(d, e).Pass? {
        assert Joins(d.nodes, e, FindPort(outs, e.from.portId).value, FindPort(ins, e.to.portId).value);
      }
    }
  }

  /** On a well-formed document an edge is accepted exactly when it joins two ports and closes no cycle of the edges that remain. */
  lemma AddEdgeEffect(table: Table, d: Doc, e: Edge, out: Port, inp: Port, rest: map<string, Edge>, who: Stamp)
    requires WF(table, d) && Joins(d.nodes, e, out, inp) && Remain(d.edges, e, inp, rest)
    ensures var r := ApplyOp(table, d, AddEdge(e), who);
      && (r.Ok? <==> ValidId(e.id) && e.id !in d.edges && |d.edges| < 400000 && !Reaches(FlowGraph(rest), e.to.nodeId, e.from.nodeId))
      && (r.Ok? ==>
            r.value == d.(edges := rest[e.id := e.(kind := out.kind, createdBy := if e.createdBy == "" then who.actor else e.createdBy,
                                                   createdAt := if e.createdAt == 0 then who.now else e.createdAt)]))
  {
    hide ValidId, Joins, Reaches, FlowGraph, Acyclic, CheckEdge, WF, EdgesOk, ParentsOk, WithoutReplaced, OutPort, InPort, SearchGraph, Remain;
    CheckEdgeExactly(d, e);
    PortsAre(d, e, out, inp);
    RestIs(d, e, inp, rest);
    RemainingEdgesOk(table, d, e, inp, rest);
    SearchFindsExactlyCycles(d.nodes, rest, e.from.nodeId, e.to.nodeId);
  }

  lemma RestIs(d: Doc, e: Edge, inp: Port, rest: map<string, Edge>)
    requires InPort(d, e) == Some(inp) && Remain(d.edges, e, inp, rest)
    ensures rest == WithoutReplaced(d, e)
  {
    hide InPort;
  }

  lemma PortsAre(d: Doc, e: Edge, out: Port, inp: Port)
    requires Joins(d.nodes, e, out, inp)
    ensures OutPort(d, e) == Some(out) && InPort(d, e) == Some(inp) && (e.kind == "" || e.kind == out.kind)
    ensures e.to.nodeId in d.nodes && d.nodes[e.to.nodeId].ty != "group"
  {
    FindPortExactly(d.nodes[e.from.nodeId].ports.outputs, e.from.portId, out);
    FindPortExactly(d.nodes[e.to.nodeId].ports.inputs, e.to.portId, inp);
  }

  lemma RemainingEdgesOk(table: Table, d: Doc, e: Edge, inp: Port, rest: map<string, Edge>)
    requires WF(table, d) && Remain(d.edges, e, inp, rest)
    ensures EdgesOk(d.nodes, rest) && Acyclic(FlowGraph(rest)) && ParentsOk(d.nodes)
  {
    FewerEdges(d.nodes, d.edges, rest);
    SubgraphAcyclic(FlowGraph(rest), FlowGraph(d.edges));
  }

  lemma RemoveEdgeEffect(table: Table, d: Doc, id: string, who: Stamp)
    ensures var r := ApplyOp(table, d, RemoveEdge(id), who);
      if id !in d.edges then r == Err(NotFound)
      else
        && r.Ok? && r.value == d.(edges := r.value.edges)
        && (forall k :: k in r.value.edges <==> k in d.edges && k != id) && forall k :: k in r.value.edges ==> r.value.edges[k] == d.edges[k]
  {
  }

  // ---------------------------------------------------------------- groups

  /** Grouping moves every listed node under the group and nothing else; its rectangle is the matter of another theorem. */
  lemma GroupEffect(table: Table, d: Doc, ids: seq<string>, group: string, title: string, given: Option<Rect>, who: Stamp)
    requires WF(table, d)
    ensures var r := ApplyOp(table, d, Group(ids, group, title, given), who);
      && (r.Ok? <==>
            && ids != [] && group in d.nodes && d.nodes[group].ty == "group"
            && forall k :: k in ids ==> k in d.nodes && d.nodes[k].ty != "group" && MayGoUnder(d.nodes, k, group))
      && (r.Ok? ==>
            && r.value == d.(nodes := r.value.nodes) && r.value.nodes.Keys == d.nodes.Keys
            && (forall k :: k in d.nodes && k != group ==>
                  r.value.nodes[k] == if k in ids then d.nodes[k].(parentId := group) else d.nodes[k])
            && r.value.nodes[group] == d.nodes[group].(rect := r.value.nodes[group].rect))
  {
    hide Adopt, MayGoUnder, WF, GroupRect, RectOk, Regrouped, ApplyOp, ParentGraph;
    GroupIsApplied(table, d, ids, group, title, given, who);
    GroupAcceptedExactly(table, d, ids, group);
    if Adopt(d.nodes, ids, group).Ok? {
      AdoptIs(d.nodes, ids, group);
      RegroupedIs(d.nodes, ids, group);
    }
  }

  lemma GroupIsApplied(table: Table, d: Doc, ids: seq<string>, group: string, title: string, given: Option<Rect>, who: Stamp)
    ensures ApplyOp(table, d, Group(ids, group, title, given), who) == ApplyGroup(d, ids, group, given)
  {
    hide ApplyGroup;
  }

  lemma RegroupedIs(nodes: map<string, Node>, ids: seq<string>, group: string)
    ensures var after := Regrouped(nodes, ids, [], group);
      after.Keys == nodes.Keys && forall k :: k in nodes ==> after[k] == if k in ids then nodes[k].(parentId := group) else nodes[k]
  {
  }

  lemma GroupAcceptedExactly(table: Table, d: Doc, ids: seq<string>, group: string)
    requires WF(table, d)
    ensures group in d.nodes && d.nodes[group].ty == "group" ==>
      (Adopt(d.nodes, ids, group).Ok?
       <==> forall k :: k in ids ==> k in d.nodes && d.nodes[k].ty != "group" && MayGoUnder(d.nodes, k, group))
    ensures "" !in d.nodes
  {
    NoEmptyId(table, d.nodes);
    if group in d.nodes && d.nodes[group].ty == "group" {
      AdoptedExactly(d.nodes, ids, group);
    }
  }

  /** Adoption goes through exactly when each node passes the check on the document as it was. */
  lemma {:induction false} AdoptedExactly(nodes: map<string, Node>, ids: seq<string>, group: string)
    requires "" !in nodes && Acyclic(ParentGraph(nodes)) && ParentsOk(nodes) && group in nodes && nodes[group].ty == "group"
    ensures Adopt(nodes, ids, group).Ok?
       <==> forall k :: k in ids ==> k in nodes && nodes[k].ty != "group" && MayGoUnder(nodes, k, group)
    decreases |ids|
  {
    hide Acyclic, ParentGraph, MayGoUnder, Regrouped;
    if ids != [] {
      var n := |ids| - 1;
      var front, id := ids[..n], ids[n];
      AdoptedExactly(nodes, front, group);
      assert ids == front + [id];
      if Adopt(nodes, front, group).Ok? {
        AdoptIs(nodes, front, group);
        RegroupedIs(nodes, front, group);
        if id in nodes && nodes[id].ty != "group" {
          SameCheckLater(nodes, front, group, id);
        }
      }
    }
  }

  lemma SameCheckLater(nodes: map<string, Node>, done: seq<string>, group: string, id: string)
    requires "" !in nodes && Acyclic(ParentGraph(nodes)) && ParentsOk(nodes) && group in nodes && nodes[group].ty == "group"
    requires (forall k :: k in done ==> k in nodes && nodes[k].ty != "group") && id in nodes && nodes[id].ty != "group"
    ensures CheckParent(Regrouped(nodes, done, [], group), id, group).Pass? <==> MayGoUnder(nodes, id, group)
  {
    hide Acyclic, ShortChain, ChainAvoids, ParentGraph;
    ParentCheckExactly(nodes, id, group);
    RegroupedIs(nodes, done, group);
    var s := set k | k in done + [id];
    forall x | x in s
      ensures !Reaches(ParentGraph(nodes), group, x)
    {
      if Reaches(ParentGraph(nodes), group, x) {
        GroupsReachGroups(nodes, group, x);
      }
    }
    ChainAgrees(nodes, Regrouped(nodes, done, [], group), s, group, id, MaxGroupDepth);
  }

  /** Ungrouping moves the children to the top; or deletes them with the group and its edges, and nothing else. */
  lemma UngroupEffect(table: Table, d: Doc, group: string, keep: Option<bool>, who: Stamp)
    ensures var r := ApplyOp(table, d, Ungroup(group, keep), who);
      && (r.Ok? <==> group in d.nodes && d.nodes[group].ty == "group")
      && (r.Err? ==> r == Err(NotFound))
      && (r.Ok? ==> r.value.viewport == d.viewport && r.value.settings == d.settings)
      && (r.Ok? && keep != Some(false) ==>
            && r.value.edges == d.edges && r.value.nodes.Keys == d.nodes.Keys
            && forall k :: k in d.nodes ==> r.value.nodes[k] == if d.nodes[k].parentId == group then d.nodes[k].(parentId := "") else d.nodes[k])
      && (r.Ok? && keep == Some(false) ==>
            && (forall k :: k in r.value.nodes <==> k in d.nodes && k != group && d.nodes[k].parentId != group)
            && (forall k :: k in r.value.nodes ==> r.value.nodes[k] == d.nodes[k])
            && (forall k :: k in r.value.edges <==> k in d.edges && !AtNode(d.edges[k], group))
            && (forall k :: k in r.value.edges ==> r.value.edges[k] == d.edges[k]))
  {
  }

  // ---------------------------------------------------------------- canvas-wide

  lemma SetViewportEffect(table: Table, d: Doc, v: Viewport, who: Stamp)
    ensures ApplyOp(table, d, SetViewport(v), who)
         == if PlaceInRange(v.x, v.y) && 0.05 <= v.k <= 5.0 then Ok(d.(viewport := v)) else Err(InvalidGeometry)
  {
  }

  /** A settings change names known settings with values of their kind; each setting it names takes that value, and the others stay. */
  lemma SetSettingsEffect(table: Table, d: Doc, patch: map<string, Value>, who: Stamp)
    ensures var r := ApplyOp(table, d, SetSettings(patch), who);
      && (r.Ok? <==>
            && patch != map[]
            && (forall k :: k in patch ==> k in {"background", "imageInfo", "gridSnap", "readOnly", "freeResize"})
            && ("background" in patch ==> patch["background"] in {Str("lines"), Str("dots"), Str("blank")})
            && (forall k :: k in patch && k != "background" ==> patch[k].Bool?))
      && (r.Err? ==> r == Err(InvalidSpec))
      && (r.Ok? ==>
            && r.value == d.(settings := r.value.settings)
            && var was, now := d.settings, r.value.settings;
               && (if "background" in patch then patch["background"] == Str(now.background) else now.background == was.background)
               && (if "imageInfo" in patch then patch["imageInfo"] == Bool(now.imageInfo) else now.imageInfo == was.imageInfo)
               && (if "gridSnap" in patch then patch["gridSnap"] == Bool(now.gridSnap) else now.gridSnap == was.gridSnap)
               && (if "readOnly" in patch then patch["readOnly"] == Bool(now.readOnly) else now.readOnly == was.readOnly)
               && (if "freeResize" in patch then patch["freeResize"] == Bool(now.freeResize) else now.freeResize == was.freeResize))
  {
    SomeKey(patch);
    if ApplySetSettings(d, patch).Ok? {
      forall k | k in patch
        ensures SettingOk(k, patch[k])
      {
      }
    }
  }

  // ---------------------------------------------------------------- batches and names

  /** Document by document, each operation of the list is accepted on what the ones before it made. */
  ghost predicate Unfolds(table: Table, d: Doc, ops: seq<Op>, who: Stamp, docs: seq<Doc>) {
    |docs| == |ops| + 1 && docs[0] == d
    && forall i :: 0 <= i < |ops| ==> ApplyOp(table, docs[i], ops[i], who) == Ok(docs[i + 1])
  }

  /** A batch is accepted exactly when it has at most a thousand operations and each is accepted in its turn; its outcome is the last document. */
  lemma BatchEffect(table: Table, d: Doc, ops: seq<Op>, who: Stamp, after: Doc)
    ensures BatchOutcome(table, d, ops, who) == Ok(after)
       <==> |ops| <= 1000 && exists docs :: Unfolds(table, d, ops, who, docs) && docs[|ops|] == after
    ensures |ops| > 1000 ==> BatchOutcome(table, d, ops, who) == Err(PayloadTooLarge)
  {
    hide ApplyOp;
    if ApplyAll(table, d, ops, who).Ok? {
      var docs := AllSteps(table, d, ops, who);
    }
    if docs :| Unfolds(table, d, ops, who, docs) && docs[|ops|] == after {
      ApplyAllSteps(table, docs, ops, who);
    }
  }

  lemma {:induction false} AllSteps(table: Table, d: Doc, ops: seq<Op>, who: Stamp) returns (docs: seq<Doc>)
    requires ApplyAll(table, d, ops, who).Ok?
    ensures Unfolds(table, d, ops, who, docs) && docs[|ops|] == ApplyAll(table, d, ops, who).value
    decreases |ops|
  {
    hide ApplyOp;
    if ops == [] {
      docs := [d];
    } else {
      var n := |ops| - 1;
      var front := AllSteps(table, d, ops[..n], who);
      docs := front + [ApplyAll(table, d, ops, who).value];
      assert forall i :: 0 <= i < n ==> ops[..n][i] == ops[i];
    }
  }

  /** The code of a character that is a capital or small letter, or a digit. */
  predicate Letter(c: char) {
    65 <= c as int <= 90 || 97 <= c as int <= 122
  }

  predicate SmallLetter(c: char) {
    97 <= c as int <= 122
  }

  predicate Digit(c: char) {
    48 <= c as int <= 57
  }

  /** An ID has 1 to 64 letters, digits and signs out of underscore, dot, colon and hyphen. */
  lemma IdsExactly(id: string)
    ensures ValidId(id)
       <==> 1 <= |id| <= 64 && forall i :: 0 <= i < |id| ==> Letter(id[i]) || Digit(id[i]) || id[i] in {'_', '.', ':', '-'}
  {
  }

  /** A node type starts with a small letter and goes on with small letters, digits and hyphens. */
  lemma TypesExactly(t: string)
    ensures ValidNodeTypeId(t)
       <==> |t| > 0 && SmallLetter(t[0]) && forall i :: 0 <= i < |t| ==> SmallLetter(t[i]) || Digit(t[i]) || t[i] == '-'
  {
  }
}
