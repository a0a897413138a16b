/** The canvas document as the server changes it: in place, one operation at a time, on a clone. */
module Canvas {
  import opened Outcomes
  import opened Ordering
  import opened Digraphs
  import opened Documents
  import opened Schemas
  import opened Operations
  import CycleCheck

  /** Every node and edge is stored under its own ID. */
  ghost predicate Keyed(d: Doc) {
    (forall k :: k in d.nodes ==> d.nodes[k].id == k) && (forall k :: k in d.edges ==> d.edges[k].id == k)
  }

  /** What an accepted or rejected operation left behind, against the function that specifies it. */
  ghost predicate Applied(before: Doc, op: Op, expected: Outcome<Doc>, r: Outcome<Inverse>, after: Doc) {
    match r
    case Ok(inv) => expected == Ok(after) && IsInverse(before, op, inv)
    case Err(code) => expected == Err(code)
  }

  class CanvasDocument {
    const id: string
    const projectId: string
    var version: int
    var viewport: Viewport
    var settings: Settings
    var nodes: map<string, Node>
    var edges: map<string, Edge>
    var updatedAt: int

    ghost function Contents(): Doc
      reads this
    {
      Doc(viewport, settings, nodes, edges)
    }

    ghost predicate Valid()
      reads this
    {
      Keyed(Contents())
    }

    constructor New(id: string, projectId: string)
      ensures this.id == id && this.projectId == projectId && version == 0 && updatedAt == 0
      ensures Contents() == EmptyDoc && Valid()
      ensures nodes == map[] && edges == map[] && viewport == Viewport(0.0, 0.0, 1.0)
      ensures settings == Settings("dots", true, false, false, false)
    {
      this.id, this.projectId, version, updatedAt := id, projectId, 0, 0;
      viewport, settings, nodes, edges := EmptyDoc.viewport, DefaultSettings, map[], map[];
    }

    constructor Clone(d: CanvasDocument)
      ensures id == d.id && projectId == d.projectId && version == d.version && updatedAt == d.updatedAt
      ensures Contents() == d.Contents()
    {
      id, projectId, version, updatedAt := d.id, d.projectId, d.version, d.updatedAt;
      viewport, settings, nodes, edges := d.viewport, d.settings, d.nodes, d.edges;
    }

    // -------------------------------------------------------------- nodes

    method AddNode(table: Table, n: Node) returns (r: Outcome<Inverse>)
      requires Valid()
      modifies this`nodes
      ensures Valid()
      ensures Applied(old(Contents()), Op.AddNode(n), ApplyAddNode(table, old(Contents()), n), r, Contents())
    {
      if !ValidId(n.id) {
        return Err(InvalidId);
      }
      if n.id in nodes {
        return Err(Conflict);
      }
      if !ValidNodeTypeId(n.ty) {
        return Err(InvalidNodeType);
      }
      if !RectOk(n.rect) {
        return Err(InvalidGeometry);
      }
      if |n.title| > MaxTitleLen {
        return Err(InvalidSpec);
      }
      if |nodes| >= MaxNodesPerCanvas {
        return Err(PayloadTooLarge);
      }
      var m := n;
      match SchemaFor(table, n.ty) {
        case Some(s) => m := m.(ports := s.ports);
        case None =>
          if !IsPluginType(n.ty) {
            return Err(InvalidNodeType);
          }
      }
      var spec := SpecCheck(table, n.ty, n.spec);
      if spec.Fail? {
        return Err(spec.code);
      }
      if m.state == "" {
        m := m.(state := "idle");
      }
      if !ValidNodeState(m.state) {
        return Err(InvalidSpec);
      }
      if m.parentId != "" {
        var check := CycleCheck.RunCheckParent(nodes, m.id, m.parentId);
        if check.Fail? {
          return Err(check.code);
        }
      }
      nodes := nodes[m.id := m];
      return Ok(One(Op.RemoveNode(n.id, Some(true))));
    }

    method RemoveNode(id: string, cascadeFlag: Option<bool>) returns (r: Outcome<Inverse>)
      requires Valid()
      modifies this`nodes, this`edges
      ensures Valid()
      ensures Applied(old(Contents()), Op.RemoveNode(id, cascadeFlag),
                      ApplyRemoveNode(old(Contents()), id, Default(cascadeFlag, true)), r, Contents())
    {
      if id !in nodes {
        return Err(NotFound);
      }
      var cascade := Default(cascadeFlag, true);
      var restore := [Op.AddNode(nodes[id])];
      var children := ChildrenOf(nodes, id);
      restore := restore + SetParents(children, id);
      var incident := CollectIncident(edges, id);
      EnumeratesEmpty(incident, IncidentEdges(edges, id));
      if !cascade && |incident| > 0 {
        return Err(Conflict);
      }
      DeleteEdges(id, incident);
      restore := restore + AddEdges(incident);
      UnparentAll(id, children);
      nodes := nodes - {id};
      return Ok(Many(restore));
    }

    /** The edges touching a node, in whatever order the map yields them. */
    static method CollectIncident(edges: map<string, Edge>, id: string) returns (found: seq<Edge>)
      requires forall k :: k in edges ==> edges[k].id == k
      ensures Enumerates(found, IncidentEdges(edges, id))
    {
      found := [];
      var todo := edges.Keys;
      while todo != {}
        invariant todo <= edges.Keys
        invariant Distinct(found)
        invariant forall e :: e in found <==> e.id in edges && e.id !in todo && edges[e.id] == e && Incident(e, id)
        decreases todo
      {
        var k :| k in todo;
        if Incident(edges[k], id) {
          found := found + [edges[k]];
        }
        todo := todo - {k};
      }
    }

    method DeleteEdges(node: string, incident: seq<Edge>)
      requires forall k :: k in edges ==> edges[k].id == k
      requires Enumerates(incident, IncidentEdges(edges, node))
      modifies this`edges
      ensures edges == WithoutIncident(old(edges), node)
    {
      var i := 0;
      while i < |incident|
        invariant 0 <= i <= |incident|
        invariant forall k :: k in edges <==> k in old(edges) && old(edges)[k] !in incident[..i]
        invariant forall k :: k in edges ==> edges[k] == old(edges)[k]
      {
        assert incident[i] in IncidentEdges(old(edges), node);
        edges := edges - {incident[i].id};
        assert incident[..i + 1] == incident[..i] + [incident[i]];
        i := i + 1;
      }
      assert incident[..i] == incident;
    }

    /** Moves the listed children of a group to the top level. */
    method UnparentAll(group: string, children: seq<string>)
      requires children == ChildrenOf(nodes, group)
      modifies this`nodes
      ensures nodes == Orphaned(old(nodes), group)
    {
      hide OrphanedSome, Orphaned, ChildrenOf;
      ghost var before := nodes;
      OrphanedAtTheStart(before, children);
      var i := 0;
      while i < |children|
        invariant 0 <= i <= |children|
        invariant nodes == OrphanedSome(before, children[..i])
      {
        OrphanOneMore(before, children, group, i);
        nodes := nodes[children[i] := nodes[children[i]].(parentId := "")];
        i := i + 1;
      }
      OrphanedAtTheEnd(before, group, children);
    }

    method MoveNode(id: string, x: real, y: real, delta: bool) returns (r: Outcome<Inverse>)
      requires Valid()
      modifies this`nodes
      ensures Valid()
      ensures Applied(old(Contents()), Op.MoveNode(id, x, y, delta), ApplyMoveNode(old(Contents()), id, x, y, delta), r, Contents())
    {
      if id !in nodes {
        return Err(NotFound);
      }
      var n := nodes[id];
      var check := CheckCoord(x);
      if check.Fail? {
        return Err(check.code);
      }
      check := CheckCoord(y);
      if check.Fail? {
        return Err(check.code);
      }
      var prev := n.rect;
      if delta {
        n := n.(rect := n.rect.(x := n.rect.x + x));
        n := n.(rect := n.rect.(y := n.rect.y + y));
      } else {
        n := n.(rect := n.rect.(x := x));
        n := n.(rect := n.rect.(y := y));
      }
      check := ValidateRect(n.rect);
      if check.Fail? {
        return Err(check.code);
      }
      nodes := nodes[id := n];
      return Ok(One(Op.MoveNode(id, prev.x, prev.y, false)));
    }

    method ResizeNode(id: string, width: real, height: real, keepAspect: bool) returns (r: Outcome<Inverse>)
      requires Valid()
      modifies this`nodes
      ensures Valid()
      ensures Applied(old(Contents()), Op.ResizeNode(id, width, height, keepAspect),
                      ApplyResizeNode(old(Contents()), id, width, height, keepAspect), r, Contents())
    {
      if id !in nodes {
        return Err(NotFound);
      }
      var n := nodes[id];
      var prev := n.rect;
      var w, h := width, height;
      if keepAspect && prev.h > 0.0 && prev.w > 0.0 && w > 0.0 {
        h := prev.h * (w / prev.w);
      }
      var rect := Rect(prev.x, prev.y, w, h);
      assert rect == ResizedRect(prev, width, height, keepAspect);
      var check := ValidateRect(rect);
      if check.Fail? {
        return Err(check.code);
      }
      nodes := nodes[id := n.(rect := rect)];
      return Ok(One(Op.ResizeNode(id, prev.w, prev.h, false)));
    }

    method SetTitle(id: string, newTitle: string) returns (r: Outcome<Inverse>)
      requires Valid()
      modifies this`nodes
      ensures Valid()
      ensures Applied(old(Contents()), Op.SetTitle(id, newTitle), ApplySetTitle(old(Contents()), id, newTitle), r, Contents())
    {
      if id !in nodes {
        return Err(NotFound);
      }
      if |newTitle| > MaxTitleLen {
        return Err(InvalidSpec);
      }
      var n := nodes[id];
      var prev := n.title;
      var title := newTitle;
      if title == "" {
        title := prev;
      }
      nodes := nodes[id := n.(title := title)];
      return Ok(One(Op.SetTitle(id, prev)));
    }

    method SetSpec(table: Table, id: string, patch: map<string, Value>, unset: seq<string>,
                   meta: map<string, Value>, metaUnset: seq<string>) returns (r: Outcome<Inverse>)
      requires Valid()
      modifies this`nodes
      ensures Valid()
      ensures Applied(old(Contents()), Op.SetSpec(id, patch, unset, meta, metaUnset),
                      ApplySetSpec(table, old(Contents()), id, patch, unset, meta, metaUnset), r, Contents())
    {
      if id !in nodes {
        return Err(NotFound);
      }
      var n := nodes[id];
      var hasSpecChange := |patch| > 0 || |unset| > 0;
      var hasMetaChange := |meta| > 0 || |metaUnset| > 0;
      if !hasSpecChange && !hasMetaChange {
        return Err(InvalidSpec);
      }
      if hasMetaChange {
        r := SetMeta(table, id, patch, unset, meta, metaUnset);
      } else {
        r := SetFields(table, id, patch, unset, meta, metaUnset);
      }
    }

    method SetMeta(ghost table: Table, id: string, ghost patch: map<string, Value>, ghost unset: seq<string>,
                   meta: map<string, Value>, metaUnset: seq<string>) returns (r: Outcome<Inverse>)
      requires id in nodes && (|meta| > 0 || |metaUnset| > 0)
      requires Valid()
      modifies this`nodes
      ensures Valid()
      ensures Applied(old(Contents()), Op.SetSpec(id, patch, unset, meta, metaUnset),
                      ApplySetSpec(table, old(Contents()), id, patch, unset, meta, metaUnset), r, Contents())
    {
      var n := nodes[id];
      var kept, removed := UnsetMeta(n.meta, metaUnset);
      var next := FinishMeta(n.meta, kept, meta, metaUnset);
      if next.Err? {
        return Err(next.code);
      }
      SetMetaInverse(Contents(), id, patch, unset, meta, metaUnset, removed);
      nodes := nodes[id := n.(meta := next.value)];
      return Ok(One(Op.SetSpec(id, map[], [], n.meta, removed)));
    }

    method SetFields(table: Table, id: string, patch: map<string, Value>, unset: seq<string>,
                     ghost meta: map<string, Value>, ghost metaUnset: seq<string>) returns (r: Outcome<Inverse>)
      requires id in nodes && (|patch| > 0 || |unset| > 0) && |meta| == 0 && |metaUnset| == 0
      requires Valid()
      modifies this`nodes
      ensures Valid()
      ensures Applied(old(Contents()), Op.SetSpec(id, patch, unset, meta, metaUnset),
                      ApplySetSpec(table, old(Contents()), id, patch, unset, meta, metaUnset), r, Contents())
    {
      var n := nodes[id];
      var prev := n.spec;
      var changed := ChangeFields(table, n.ty, prev, patch, unset);
      if changed.Err? {
        return Err(changed.code);
      }
      var next := changed.value;
      var lost := LostKeys(prev, next);
      SetFieldsInverse(table, Contents(), id, patch, unset, meta, metaUnset, lost);
      nodes := nodes[id := n.(spec := next)];
      return Ok(One(Op.SetSpec(id, prev, lost, map[], [])));
    }

    static method ChangeFields(table: Table, ty: string, spec: map<string, Value>, patch: map<string, Value>, unset: seq<string>)
      returns (r: Outcome<map<string, Value>>)
      ensures r == PatchedSpec(table, ty, spec, patch, unset)
    {
      var dropped := UnsetFields(table, ty, spec, unset);
      if dropped.Err? {
        return dropped;
      }
      r := PatchFields(table, ty, dropped.value, patch);
      if r.Err? {
        return;
      }
      var verdict := ValidateSpec(table, ty, r.value);
      if verdict.Rejected? {
        r := Err(verdict.code);
      }
    }

    static method UnsetFields(table: Table, ty: string, spec: map<string, Value>, unset: seq<string>)
      returns (r: Outcome<map<string, Value>>)
      ensures r == if exists i :: 0 <= i < |unset| && !SpecFieldAllowed(table, ty, unset[i]) then Err(InvalidSpec)
                   else Ok(Without(spec, unset))
    {
      var next := spec;
      var i := 0;
      while i < |unset|
        invariant 0 <= i <= |unset|
        invariant forall j :: 0 <= j < i ==> SpecFieldAllowed(table, ty, unset[j])
        invariant next == Without(spec, unset[..i])
      {
        if !SpecFieldAllowed(table, ty, unset[i]) {
          return Err(InvalidSpec);
        }
        next := next - {unset[i]};
        assert unset[..i + 1] == unset[..i] + [unset[i]];
        i := i + 1;
      }
      assert unset[..i] == unset;
      return Ok(next);
    }

    static method PatchFields(table: Table, ty: string, spec: map<string, Value>, patch: map<string, Value>)
      returns (r: Outcome<map<string, Value>>)
      ensures r == if exists k :: k in patch && !SpecFieldAllowed(table, ty, k) then Err(InvalidSpec) else Ok(spec + patch)
    {
      var next := spec;
      var todo := patch.Keys;
      while todo != {}
        invariant todo <= patch.Keys
        invariant forall k :: k in patch && k !in todo ==> SpecFieldAllowed(table, ty, k)
        invariant next == spec + (patch - todo)
        decreases todo
      {
        var k :| k in todo;
        if !SpecFieldAllowed(table, ty, k) {
          return Err(InvalidSpec);
        }
        next := next[k := patch[k]];
        assert patch - (todo - {k}) == (patch - todo)[k := patch[k]];
        todo := todo - {k};
      }
      assert patch - todo == patch;
      return Ok(next);
    }

    /** The keys of `prev` that `next` lacks, in whatever order the map yields them. */
    static method LostKeys(prev: map<string, Value>, next: map<string, Value>) returns (lost: seq<string>)
      ensures Enumerates(lost, prev.Keys - next.Keys)
    {
      lost := [];
      var todo := prev.Keys;
      while todo != {}
        invariant todo <= prev.Keys
        invariant Distinct(lost)
        invariant forall k :: k in lost <==> k in prev && k !in todo && k !in next
        decreases todo
      {
        var k :| k in todo;
        if k !in next {
          lost := lost + [k];
        }
        todo := todo - {k};
      }
    }

    static method FinishMeta(before: map<string, Value>, kept: Outcome<map<string, Value>>, meta: map<string, Value>,
                             ghost metaUnset: seq<string>)
      returns (r: Outcome<map<string, Value>>)
      requires kept == if exists i :: 0 <= i < |metaUnset| && !MetaKeyOk(metaUnset[i]) then Err(InvalidSpec)
                       else Ok(Without(before, metaUnset))
      ensures r == PatchedMeta(before, meta, metaUnset)
    {
      if kept.Err? {
        return kept;
      }
      r := PatchMeta(kept.value, meta);
      if r.Ok? && |r.value| > MaxMetaKeys {
        r := Err(PayloadTooLarge);
      }
    }

    static method UnsetMeta(prev: map<string, Value>, keys: seq<string>)
      returns (r: Outcome<map<string, Value>>, removed: seq<string>)
      ensures r == if exists i :: 0 <= i < |keys| && !MetaKeyOk(keys[i]) then Err(InvalidSpec) else Ok(Without(prev, keys))
      ensures r.Ok? ==> removed == Removed(prev, keys)
    {
      var next := prev;
      removed := [];
      var i := 0;
      while i < |keys|
        invariant 0 <= i <= |keys|
        invariant forall j :: 0 <= j < i ==> MetaKeyOk(keys[j])
        invariant next == Without(prev, keys[..i]) && removed == Removed(prev, keys[..i])
      {
        if !MetaKeyOk(keys[i]) {
          r := Err(InvalidSpec);
          return;
        }
        assert keys[..i + 1] == keys[..i] + [keys[i]];
        assert keys[..i + 1][..|keys[..i + 1]| - 1] == keys[..i];
        if keys[i] in next {
          removed := removed + [keys[i]];
        }
        next := next - {keys[i]};
        i := i + 1;
      }
      assert keys[..i] == keys;
      r := Ok(next);
    }

    static method PatchMeta(kept: map<string, Value>, meta: map<string, Value>) returns (r: Outcome<map<string, Value>>)
      ensures r == if exists k :: k in meta && (!MetaKeyOk(k) || meta[k].Null?) then Err(InvalidSpec) else Ok(kept + meta)
    {
      var next := kept;
      var todo := meta.Keys;
      while todo != {}
        invariant todo <= meta.Keys
        invariant forall k :: k in meta && k !in todo ==> MetaKeyOk(k) && !meta[k].Null?
        invariant next == kept + (meta - todo)
        decreases todo
      {
        var k :| k in todo;
        if !MetaKeyOk(k) {
          return Err(InvalidSpec);
        }
        if meta[k].Null? {
          return Err(InvalidSpec);
        }
        next := next[k := meta[k]];
        assert meta - (todo - {k}) == (meta - todo)[k := meta[k]];
        todo := todo - {k};
      }
      assert meta - todo == meta;
      return Ok(next);
    }

    method SetState(id: string, state: string, result: Option<NodeResult>,
                    error: Option<NodeError>) returns (r: Outcome<Inverse>)
      requires Valid()
      modifies this`nodes
      ensures Valid()
      ensures Applied(old(Contents()), Op.SetState(id, state, result, error),
                      ApplySetState(old(Contents()), id, state, result, error), r, Contents())
    {
      if id !in nodes {
        return Err(NotFound);
      }
      if !ValidNodeState(state) {
        return Err(InvalidSpec);
      }
      var n := nodes[id];
      var inverse := Op.SetState(id, n.state, n.result, n.error);
      n := n.(state := state);
      if result.Some? {
        n := n.(result := result);
      }
      if error.Some? {
        n := n.(error := error);
      }
      if state == "idle" {
        n := n.(result := None, error := None);
      }
      nodes := nodes[id := n];
      return Ok(One(inverse));
    }

    // -------------------------------------------------------------- edges

    method AddEdge(edge: Edge, who: Stamp) returns (r: Outcome<Inverse>)
      requires Valid()
      modifies this`edges
      ensures Valid()
      ensures Applied(old(Contents()), Op.AddEdge(edge), ApplyAddEdge(old(Contents()), edge, who), r, Contents())
    {
      hide Reaches, SearchGraph, FlowGraph, FindPort;
      var e := edge;
      var check := CheckEdge(Doc(viewport, settings, nodes, edges), e);
      if check.Fail? {
        return Err(check.code);
      }
      var outPort := FindPort(nodes[e.from.nodeId].ports.outputs, e.from.portId).value;
      var inPort := FindPort(nodes[e.to.nodeId].ports.inputs, e.to.portId).value;
      if !inPort.multiple {
        DropEdgesInto(e.to);
      }
      var cycle := CycleCheck.WouldCycle(nodes, edges, e.from.nodeId, e.to.nodeId);
      if cycle {
        return Err(InvalidSpec);
      }
      e := e.(kind := if e.kind == "" then outPort.kind else e.kind);
      if e.createdAt == 0 {
        e := e.(createdAt := who.now);
      }
      if e.createdBy == "" {
        e := e.(createdBy := who.actor);
      }
      edges := edges[e.id := e];
      return Ok(One(Op.RemoveEdge(e.id)));
    }

    /** Frees a single-input port by deleting every edge already there. */
    method DropEdgesInto(to: Endpoint)
      modifies this`edges
      ensures edges == map k | k in old(edges) && old(edges)[k].to != to :: old(edges)[k]
    {
      var todo := edges.Keys;
      while todo != {}
        invariant todo <= old(edges).Keys
        invariant forall k :: k in edges <==> k in old(edges) && (k in todo || old(edges)[k].to != to)
        invariant forall k :: k in edges ==> edges[k] == old(edges)[k]
        decreases todo
      {
        var k :| k in todo;
        if edges[k].to.nodeId == to.nodeId && edges[k].to.portId == to.portId {
          edges := edges - {k};
        }
        todo := todo - {k};
      }
    }

    method RemoveEdge(id: string) returns (r: Outcome<Inverse>)
      requires Valid()
      modifies this`edges
      ensures Valid()
      ensures Applied(old(Contents()), Op.RemoveEdge(id), ApplyRemoveEdge(old(Contents()), id), r, Contents())
    {
      if id !in edges {
        return Err(NotFound);
      }
      var e := edges[id];
      edges := edges - {id};
      return Ok(One(Op.AddEdge(e)));
    }

    // -------------------------------------------------------------- groups

    method Group(ids: seq<string>, group: string, title: string, given: Option<Rect>) returns (r: Outcome<Inverse>)
      requires Valid()
      modifies this`nodes
      ensures Valid()
      ensures Applied(old(Contents()), Op.Group(ids, group, title, given),
                      ApplyGroup(old(Contents()), ids, group, given), r, Contents())
    {
      hide Adopt, AdoptInverse, BoxOf, RectAround;
      if |ids| == 0 {
        return Err(InvalidSpec);
      }
      if group == "" {
        return Err(InvalidId);
      }
      if group !in nodes || nodes[group].ty != "group" {
        return Err(NotFound);
      }
      var g := nodes[group];
      var moved, inverse, box := AdoptAll(ids, group);
      if moved.Fail? {
        return Err(moved.code);
      }
      var rect := RectAround(g.rect, given, box);
      if ValidateRect(rect).Pass? {
        var prev := g.rect;
        nodes := nodes[group := g.(rect := rect)];
        inverse := inverse + [Op.ResizeNode(group, prev.w, prev.h, false)];
      }
      return Ok(Many(inverse));
    }

    /** Moves the nodes into the group one by one, recording each old parent and the bounding box. */
    method AdoptAll(ids: seq<string>, group: string) returns (r: Check, inverse: seq<Op>, box: Option<Box>)
      requires forall k :: k in nodes ==> nodes[k].id == k
      modifies this`nodes
      ensures forall k :: k in nodes ==> nodes[k].id == k
      ensures match r
        case Pass => Adopt(old(nodes), ids, group) == Ok(nodes)
                     && inverse == AdoptInverse(old(nodes), ids, group) && box == BoxOf(old(nodes), ids)
        case Fail(code) => Adopt(old(nodes), ids, group) == Err(code)
    {
      inverse, box := [], None;
      var i := 0;
      while i < |ids|
        invariant 0 <= i <= |ids|
        invariant forall k :: k in nodes ==> nodes[k].id == k
        invariant Adopt(old(nodes), ids[..i], group) == Ok(nodes)
        invariant inverse == AdoptInverse(old(nodes), ids[..i], group)
        invariant box == BoxOf(old(nodes), ids[..i])
      {
        assert ids[..i + 1][..|ids[..i + 1]| - 1] == ids[..i];
        AdoptKeepsRects(old(nodes), ids[..i], group);
        var id := ids[i];
        var check := AdoptCheck(id, group);
        if check.Fail? {
          AdoptFails(old(nodes), ids, group, i + 1);
          r := check;
          return;
        }
        inverse := inverse + [Op.SetParent(id, nodes[id].parentId)];
        box := Grow(box, nodes[id].rect);
        nodes := nodes[id := nodes[id].(parentId := group)];
        i := i + 1;
      }
      assert ids[..i] == ids;
      r := Pass;
    }

    method AdoptCheck(id: string, group: string) returns (r: Check)
      ensures r == if id !in nodes then Fail(NotFound)
                   else if id == group || nodes[id].ty == "group" then Fail(InvalidSpec)
                   else CheckParent(nodes, id, group)
    {
      if id !in nodes {
        return Fail(NotFound);
      }
      if id == group {
        return Fail(InvalidSpec);
      }
      if nodes[id].ty == "group" {
        return Fail(InvalidSpec);
      }
      r := CycleCheck.RunCheckParent(nodes, id, group);
    }

    method Ungroup(group: string, keepFlag: Option<bool>) returns (r: Outcome<Inverse>)
      requires Valid()
      modifies this`nodes, this`edges
      ensures Valid()
      ensures Applied(old(Contents()), Op.Ungroup(group, keepFlag),
                      ApplyUngroup(old(Contents()), group, Default(keepFlag, true)), r, Contents())
    {
      hide ChildrenOf, ChildIds, SetParents;
      if group !in nodes || nodes[group].ty != "group" {
        return Err(NotFound);
      }
      var keep := Default(keepFlag, true);
      var children := ChildrenOf(nodes, group);
      var inverse := SetParents(children, group);
      if keep {
        UnparentAll(group, children);
      } else {
        DeleteAll(group, children);
        DropIncident(group);
        nodes := nodes - {group};
      }
      return Ok(Many(inverse));
    }

    method DeleteAll(group: string, children: seq<string>)
      requires children == ChildrenOf(nodes, group)
      modifies this`nodes
      ensures nodes == old(nodes) - ChildIds(old(nodes), group)
    {
      var i := 0;
      while i < |children|
        invariant 0 <= i <= |children|
        invariant nodes == old(nodes) - (set k | k in children[..i])
      {
        nodes := nodes - {children[i]};
        assert children[..i + 1] == children[..i] + [children[i]];
        i := i + 1;
      }
      assert children[..i] == children;
      assert (set k | k in children) == ChildIds(old(nodes), group);
    }

    method DropIncident(node: string)
      modifies this`edges
      ensures edges == WithoutIncident(old(edges), node)
    {
      var todo := edges.Keys;
      while todo != {}
        invariant todo <= old(edges).Keys
        invariant forall k :: k in edges <==> k in old(edges) && (k in todo || !Incident(old(edges)[k], node))
        invariant forall k :: k in edges ==> edges[k] == old(edges)[k]
        decreases todo
      {
        var k :| k in todo;
        if Incident(edges[k], node) {
          edges := edges - {k};
        }
        todo := todo - {k};
      }
    }

    method SetParent(id: string, parent: string) returns (r: Outcome<Inverse>)
      requires Valid()
      modifies this`nodes
      ensures Valid()
      ensures Applied(old(Contents()), Op.SetParent(id, parent), ApplySetParent(old(Contents()), id, parent), r, Contents())
    {
      if id !in nodes {
        return Err(NotFound);
      }
      var n := nodes[id];
      var check := CycleCheck.RunCheckParent(nodes, id, parent);
      if check.Fail? {
        return Err(check.code);
      }
      var prev := n.parentId;
      if parent != "" {
        check := ValidateRect(n.rect);
        if check.Fail? {
          return Err(check.code);
        }
      }
      nodes := nodes[id := n.(parentId := parent)];
      return Ok(One(Op.SetParent(id, prev)));
    }

    // -------------------------------------------------------------- canvas-wide

    method SetViewport(v: Viewport) returns (r: Outcome<Inverse>)
      requires Valid()
      modifies this`viewport
      ensures Valid()
      ensures Applied(old(Contents()), Op.SetViewport(v), ApplySetViewport(old(Contents()), v), r, Contents())
    {
      if !ViewportOk(v) {
        return Err(InvalidGeometry);
      }
      var prev := viewport;
      viewport := v;
      return Ok(One(Op.SetViewport(prev)));
    }

    method SetSettings(patch: map<string, Value>) returns (r: Outcome<Inverse>)
      requires Valid()
      modifies this`settings
      ensures Valid()
      ensures Applied(old(Contents()), Op.SetSettings(patch), ApplySetSettings(old(Contents()), patch), r, Contents())
    {
      if |patch| == 0 {
        return Err(InvalidSpec);
      }
      var prev := SettingsPatch(settings);
      var next := MergeSettings(settings, patch);
      if next.Err? {
        return Err(next.code);
      }
      settings := next.value;
      return Ok(One(Op.SetSettings(prev)));
    }

    static method MergeSettings(s: Settings, patch: map<string, Value>) returns (r: Outcome<Settings>)
      ensures r == MergedSettings(s, patch)
    {
      var next := s;
      var todo := patch.Keys;
      assert patch - todo == map[];
      while todo != {}
        invariant todo <= patch.Keys
        invariant forall k :: k in patch && k !in todo ==> SettingOk(k, patch[k])
        invariant next == PatchedSettings(s, patch - todo)
        decreases todo
      {
        var k :| k in todo;
        var value := patch[k];
        if !SettingOk(k, value) {
          return Err(InvalidSpec);
        }
        next := WithSetting(next, k, value);
        PatchOneMore(s, patch, todo, k);
        todo := todo - {k};
      }
      assert patch - todo == patch;
      return Ok(next);
    }
  }

  lemma SetMetaInverse(d: Doc, id: string, patch: map<string, Value>, unset: seq<string>,
                       meta: map<string, Value>, metaUnset: seq<string>, removed: seq<string>)
    requires id in d.nodes && (|meta| > 0 || |metaUnset| > 0) && removed == Removed(d.nodes[id].meta, metaUnset)
    ensures IsInverse(d, Op.SetSpec(id, patch, unset, meta, metaUnset),
                      One(Op.SetSpec(id, map[], [], d.nodes[id].meta, removed)))
  {
  }

  lemma SetFieldsInverse(table: Table, d: Doc, id: string, patch: map<string, Value>, unset: seq<string>,
                         meta: map<string, Value>, metaUnset: seq<string>, lost: seq<string>)
    requires id in d.nodes && |meta| == 0 && |metaUnset| == 0
    requires var next := PatchedSpec(table, d.nodes[id].ty, d.nodes[id].spec, patch, unset);
      next.Ok? && Enumerates(lost, d.nodes[id].spec.Keys - next.value.Keys)
    ensures IsInverse(d, Op.SetSpec(id, patch, unset, meta, metaUnset),
                      One(Op.SetSpec(id, d.nodes[id].spec, lost, map[], [])))
  {
    assert SetSpecInverse(id, d.nodes[id].spec, patch, unset, One(Op.SetSpec(id, d.nodes[id].spec, lost, map[], [])));
  }

  lemma PatchOneMore(s: Settings, patch: map<string, Value>, todo: set<string>, k: string)
    requires k in todo && todo <= patch.Keys && SettingOk(k, patch[k])
    ensures PatchedSettings(s, patch - (todo - {k})) == WithSetting(PatchedSettings(s, patch - todo), k, patch[k])
  {
    assert patch - (todo - {k}) == (patch - todo)[k := patch[k]];
    PatchOne(s, patch - todo, k, patch[k]);
  }

  lemma PatchOne(s: Settings, patch: map<string, Value>, k: string, v: Value)
    requires SettingOk(k, v)
    ensures PatchedSettings(s, patch[k := v]) == WithSetting(PatchedSettings(s, patch), k, v)
  {
  }

  lemma EnumeratesEmpty<T(!new)>(es: seq<T>, s: set<T>)
    requires Enumerates(es, s)
    ensures |es| == 0 <==> s == {}
  {
    if |es| > 0 {
      assert es[0] in es;
    }
  }

  /** The nodes of `done` moved to the top level. */
  ghost function OrphanedSome(nodes: map<string, Node>, done: seq<string>): map<string, Node> {
    map k | k in nodes :: if k in done then nodes[k].(parentId := "") else nodes[k]
  }

  lemma OrphanOneMore(nodes: map<string, Node>, children: seq<string>, group: string, i: nat)
    requires children == ChildrenOf(nodes, group) && i < |children|
    ensures children[i] in OrphanedSome(nodes, children[..i])
    ensures OrphanedSome(nodes, children[..i])[children[i] := OrphanedSome(nodes, children[..i])[children[i]].(parentId := "")]
         == OrphanedSome(nodes, children[..i + 1])
  {
    assert children[i] in children;
    assert children[..i + 1] == children[..i] + [children[i]];
  }

  lemma OrphanedAtTheStart(nodes: map<string, Node>, children: seq<string>)
    ensures OrphanedSome(nodes, children[..0]) == nodes
  {
  }

  lemma OrphanedAtTheEnd(nodes: map<string, Node>, group: string, children: seq<string>)
    requires children == ChildrenOf(nodes, group)
    ensures OrphanedSome(nodes, children[..|children|]) == Orphaned(nodes, group)
  {
    assert children[..|children|] == children;
    assert forall k :: k in children <==> k in ChildIds(nodes, group);
  }

  lemma {:induction false} AdoptKeepsRects(nodes: map<string, Node>, ids: seq<string>, group: string)
    requires Adopt(nodes, ids, group).Ok?
    ensures Adopt(nodes, ids, group).value.Keys == nodes.Keys
    ensures forall k :: k in nodes ==> Adopt(nodes, ids, group).value[k].rect == nodes[k].rect
    decreases |ids|
  {
    if ids != [] {
      AdoptKeepsRects(nodes, ids[..|ids| - 1], group);
    }
  }

  /** A rejected prefix rejects the whole list with the same code. */
  lemma {:induction false} AdoptFails(nodes: map<string, Node>, ids: seq<string>, group: string, n: nat)
    requires n <= |ids| && Adopt(nodes, ids[..n], group).Err?
    ensures Adopt(nodes, ids, group) == Adopt(nodes, ids[..n], group)
    decreases |ids|
  {
    if n == |ids| {
      assert ids[..n] == ids;
    } else {
      assert ids[..|ids| - 1][..n] == ids[..n];
      AdoptFails(nodes, ids[..|ids| - 1], group, n);
    }
  }
}
