/** The fourteen operations: what each accepts, the document it leads to, and its inverse operations. */
module Operations {
  import opened Outcomes
  import opened Ordering
  import opened Digraphs
  import opened Documents
  import opened Schemas

  datatype Op =
    | AddNode(node: Node)
    | RemoveNode(id: string, cascade: Option<bool>)
    | MoveNode(id: string, x: real, y: real, delta: bool)
    | ResizeNode(id: string, w: real, h: real, keepAspect: bool)
    | SetTitle(id: string, title: string)
    | SetSpec(id: string, patch: map<string, Value>, unset: seq<string>, meta: map<string, Value>, metaUnset: seq<string>)
    | SetState(id: string, state: string, result: Option<NodeResult>, error: Option<NodeError>)
    | AddEdge(edge: Edge)
    | RemoveEdge(id: string)
    | Group(nodeIds: seq<string>, groupId: string, title: string, rect: Option<Rect>)
    | Ungroup(groupId: string, keepChildren: Option<bool>)
    | SetViewport(viewport: Viewport)
    | SetSettings(settings: map<string, Value>)
    | SetParent(id: string, parentId: string)

  /** Who applies a batch, and when. */
  datatype Stamp = Stamp(actor: string, now: int)

  // ---------------------------------------------------------------- parents and cycles

  /** Following parent links from `cur` ends within `fuel` nodes and never meets `node`. */
  predicate ChainAvoids(nodes: map<string, Node>, cur: string, node: string, fuel: nat)
    decreases fuel
  {
    cur == "" ||
    (fuel > 0 && cur != node && (cur in nodes ==> ChainAvoids(nodes, nodes[cur].parentId, node, fuel - 1)))
  }

  function CheckParent(nodes: map<string, Node>, node: string, parent: string): Check {
    if parent == "" then Pass
    else if node == parent then Fail(InvalidSpec)
    else if parent !in nodes then Fail(NotFound)
    else if nodes[parent].ty != "group" then Fail(InvalidSpec)
    else if !ChainAvoids(nodes, parent, node, MaxGroupDepth) then Fail(InvalidSpec)
    else Pass
  }

  /** Data flow: one arc from source node to target node per edge. */
  ghost function FlowGraph(edges: map<string, Edge>): Digraph<string> {
    set k | k in edges :: (edges[k].from.nodeId, edges[k].to.nodeId)
  }

  /** One arc from each grouped node to its group. */
  ghost function ParentGraph(nodes: map<string, Node>): Digraph<string> {
    set k | k in nodes && nodes[k].parentId != "" :: (k, nodes[k].parentId)
  }

  /** Where the cycle search may step: against an edge, or from a node to its group. */
  ghost function SearchGraph(nodes: map<string, Node>, edges: map<string, Edge>): Digraph<string> {
    Reverse(FlowGraph(edges)) + ParentGraph(nodes)
  }

  // ---------------------------------------------------------------- nodes

  /** The node as stored: ports come from the schema and an empty state means idle. */
  function Normalized(table: Table, n: Node): Node
    requires SchemaFor(table, n.ty).Some?
  {
    n.(ports := SchemaFor(table, n.ty).value.ports, state := if n.state == "" then "idle" else n.state)
  }

  function SpecCheck(table: Table, t: string, spec: map<string, Value>): Check {
    match ValidateSpec(table, t, spec)
    case Accepted => Pass
    case MissingRequired => Fail(InvalidSpec)
    case Rejected(code) => Fail(code)
  }

  function ApplyAddNode(table: Table, d: Doc, n: Node): Outcome<Doc> {
    if !ValidId(n.id) then Err(InvalidId)
    else if n.id in d.nodes then Err(Conflict)
    else if !ValidNodeTypeId(n.ty) then Err(InvalidNodeType)
    else if !RectOk(n.rect) then Err(InvalidGeometry)
    else if |n.title| > MaxTitleLen then Err(InvalidSpec)
    else if |d.nodes| >= MaxNodesPerCanvas then Err(PayloadTooLarge)
    else if SchemaFor(table, n.ty).None? then
      if !IsPluginType(n.ty) then Err(InvalidNodeType) else Err(InvalidSpec)
    else if SpecCheck(table, n.ty, n.spec).Fail? then Err(SpecCheck(table, n.ty, n.spec).code)
    else if n.state != "" && !ValidNodeState(n.state) then Err(InvalidSpec)
    else if n.parentId != "" && CheckParent(d.nodes, n.id, n.parentId).Fail? then
      Err(CheckParent(d.nodes, n.id, n.parentId).code)
    else Ok(d.(nodes := d.nodes[n.id := Normalized(table, n)]))
  }

  predicate Incident(e: Edge, node: string) {
    e.from.nodeId == node || e.to.nodeId == node
  }

  ghost function IncidentEdges(edges: map<string, Edge>, node: string): set<Edge> {
    set k | k in edges && Incident(edges[k], node) :: edges[k]
  }

  ghost function WithoutIncident(edges: map<string, Edge>, node: string): map<string, Edge> {
    map k | k in edges && !Incident(edges[k], node) :: edges[k]
  }

  /** Every child of `group` moved to the top level. */
  ghost function Orphaned(nodes: map<string, Node>, group: string): map<string, Node> {
    map k | k in nodes :: if nodes[k].parentId == group then nodes[k].(parentId := "") else nodes[k]
  }

  function Default(flag: Option<bool>, value: bool): bool {
    if flag.Some? then flag.value else value
  }

  ghost function ApplyRemoveNode(d: Doc, id: string, cascade: bool): Outcome<Doc> {
    if id !in d.nodes then Err(NotFound)
    else if !cascade && IncidentEdges(d.edges, id) != {} then Err(Conflict)
    else Ok(d.(nodes := Orphaned(d.nodes, id) - {id}, edges := WithoutIncident(d.edges, id)))
  }

  function MovedRect(r: Rect, x: real, y: real, delta: bool): Rect {
    if delta then r.(x := r.x + x, y := r.y + y) else r.(x := x, y := y)
  }

  /** The document with one node replaced by an accepted change of it. */
  function PutNode(d: Doc, id: string, changed: Outcome<Node>): Outcome<Doc> {
    if changed.Err? then Err(changed.code) else Ok(d.(nodes := d.nodes[id := changed.value]))
  }

  function MovedNode(n: Node, x: real, y: real, delta: bool): Outcome<Node> {
    if CheckCoord(x).Fail? || CheckCoord(y).Fail? then Err(InvalidGeometry)
    else
      var r := MovedRect(n.rect, x, y, delta);
      if !RectOk(r) then Err(InvalidGeometry) else Ok(n.(rect := r))
  }

  function ApplyMoveNode(d: Doc, id: string, x: real, y: real, delta: bool): Outcome<Doc> {
    if id !in d.nodes then Err(NotFound) else PutNode(d, id, MovedNode(d.nodes[id], x, y, delta))
  }

  function ResizedRect(r: Rect, w: real, h: real, keepAspect: bool): Rect {
    if keepAspect && r.h > 0.0 && r.w > 0.0 && w > 0.0 then r.(w := w, h := r.h * (w / r.w)) else r.(w := w, h := h)
  }

  function ResizedNode(n: Node, w: real, h: real, keepAspect: bool): Outcome<Node> {
    var r := ResizedRect(n.rect, w, h, keepAspect);
    if !RectOk(r) then Err(InvalidGeometry) else Ok(n.(rect := r))
  }

  function ApplyResizeNode(d: Doc, id: string, w: real, h: real, keepAspect: bool): Outcome<Doc> {
    if id !in d.nodes then Err(NotFound) else PutNode(d, id, ResizedNode(d.nodes[id], w, h, keepAspect))
  }

  function TitledNode(n: Node, title: string): Outcome<Node> {
    if |title| > MaxTitleLen then Err(InvalidSpec) else Ok(n.(title := if title == "" then n.title else title))
  }

  function ApplySetTitle(d: Doc, id: string, title: string): Outcome<Doc> {
    if id !in d.nodes then Err(NotFound) else PutNode(d, id, TitledNode(d.nodes[id], title))
  }

  /** `m` without the listed keys. */
  function Without(m: map<string, Value>, keys: seq<string>): map<string, Value> {
    map k | k in m && k !in keys :: m[k]
  }

  predicate MetaKeyOk(k: string) {
    k != "" && |k| <= MaxMetaKeyLen && k !in {"__proto__", "constructor", "prototype"}
  }

  /** A meta map after a change, or why the change is refused. */
  function PatchedMeta(before: map<string, Value>, meta: map<string, Value>,
                       metaUnset: seq<string>): Outcome<map<string, Value>> {
    var next := Without(before, metaUnset) + meta;
    if (exists i :: 0 <= i < |metaUnset| && !MetaKeyOk(metaUnset[i]))
       || (exists k :: k in meta && (!MetaKeyOk(k) || meta[k].Null?)) then Err(InvalidSpec)
    else if |next| > MaxMetaKeys then Err(PayloadTooLarge)
    else Ok(next)
  }

  /** A configuration after a change, or why the change is refused; a missing required field is no reason. */
  function PatchedSpec(table: Table, ty: string, spec: map<string, Value>, patch: map<string, Value>,
                       unset: seq<string>)
    : Outcome<map<string, Value>> {
    var next := Without(spec, unset) + patch;
    if (exists i :: 0 <= i < |unset| && !SpecFieldAllowed(table, ty, unset[i]))
       || (exists k :: k in patch && !SpecFieldAllowed(table, ty, k)) then Err(InvalidSpec)
    else
      var verdict := ValidateSpec(table, ty, next);
      if verdict.Rejected? then Err(verdict.code) else Ok(next)
  }

  /** When the operation carries a meta change, its spec part is not looked at. */
  function ConfiguredNode(table: Table, n: Node, patch: map<string, Value>, unset: seq<string>,
                          meta: map<string, Value>, metaUnset: seq<string>): Outcome<Node> {
    if |patch| == 0 && |unset| == 0 && |meta| == 0 && |metaUnset| == 0 then Err(InvalidSpec)
    else if |meta| > 0 || |metaUnset| > 0 then
      var next := PatchedMeta(n.meta, meta, metaUnset);
      if next.Err? then Err(next.code) else Ok(n.(meta := next.value))
    else
      var next := PatchedSpec(table, n.ty, n.spec, patch, unset);
      if next.Err? then Err(next.code) else Ok(n.(spec := next.value))
  }

  function ApplySetSpec(table: Table, d: Doc, id: string, patch: map<string, Value>, unset: seq<string>,
                        meta: map<string, Value>, metaUnset: seq<string>): Outcome<Doc> {
    if id !in d.nodes then Err(NotFound)
    else PutNode(d, id, ConfiguredNode(table, d.nodes[id], patch, unset, meta, metaUnset))
  }

  function StatedNode(n: Node, state: string, result: Option<NodeResult>, error: Option<NodeError>): Outcome<Node> {
    if !ValidNodeState(state) then Err(InvalidSpec)
    else
      var r := if state == "idle" then None else if result.Some? then result else n.result;
      var e := if state == "idle" then None else if error.Some? then error else n.error;
      Ok(n.(state := state, result := r, error := e))
  }

  function ApplySetState(d: Doc, id: string, state: string, result: Option<NodeResult>,
                         error: Option<NodeError>): Outcome<Doc> {
    if id !in d.nodes then Err(NotFound) else PutNode(d, id, StatedNode(d.nodes[id], state, result, error))
  }

  // ---------------------------------------------------------------- edges

  function EdgeKind(e: Edge, out: Port): string {
    if e.kind == "" then out.kind else e.kind
  }

  /** Every check on a new edge that does not look at the other edges' arcs. */
  function CheckEdge(d: Doc, e: Edge): Check {
    if !ValidId(e.id) then Fail(InvalidId)
    else if e.id in d.edges then Fail(Conflict)
    else if |d.edges| >= MaxEdgesPerCanvas then Fail(PayloadTooLarge)
    else if e.from.nodeId !in d.nodes || e.to.nodeId !in d.nodes then Fail(NotFound)
    else if e.from.nodeId == e.to.nodeId then Fail(InvalidSpec)
    else if d.nodes[e.from.nodeId].ty == "group" || d.nodes[e.to.nodeId].ty == "group" then Fail(InvalidSpec)
    else
      var outPort := FindPort(d.nodes[e.from.nodeId].ports.outputs, e.from.portId);
      var inPort := FindPort(d.nodes[e.to.nodeId].ports.inputs, e.to.portId);
      if outPort.None? || inPort.None? then Fail(InvalidSpec)
      else if !ValidResourceKind(EdgeKind(e, outPort.value)) then Fail(InvalidSpec)
      else if outPort.value.kind != inPort.value.kind || outPort.value.kind != EdgeKind(e, outPort.value) then
        Fail(InvalidSpec)
      else Pass
  }

  function InPort(d: Doc, e: Edge): Option<Port> {
    if e.to.nodeId in d.nodes then FindPort(d.nodes[e.to.nodeId].ports.inputs, e.to.portId) else None
  }

  function OutPort(d: Doc, e: Edge): Option<Port> {
    if e.from.nodeId in d.nodes then FindPort(d.nodes[e.from.nodeId].ports.outputs, e.from.portId) else None
  }

  /** A new edge into a single-input port pushes out the edges already there. */
  ghost function WithoutReplaced(d: Doc, e: Edge): map<string, Edge> {
    if InPort(d, e).Some? && !InPort(d, e).value.multiple then
      map k | k in d.edges && d.edges[k].to != e.to :: d.edges[k]
    else d.edges
  }

  function Stamped(e: Edge, out: Port, who: Stamp): Edge {
    e.(kind := EdgeKind(e, out),
       createdAt := if e.createdAt == 0 then who.now else e.createdAt,
       createdBy := if e.createdBy == "" then who.actor else e.createdBy)
  }

  ghost function ApplyAddEdge(d: Doc, e: Edge, who: Stamp): Outcome<Doc> {
    if CheckEdge(d, e).Fail? then Err(CheckEdge(d, e).code)
    else
      var kept := WithoutReplaced(d, e);
      if Reaches(SearchGraph(d.nodes, kept), e.from.nodeId, e.to.nodeId) then Err(InvalidSpec)
      else Ok(d.(edges := kept[e.id := Stamped(e, OutPort(d, e).value, who)]))
  }

  function ApplyRemoveEdge(d: Doc, id: string): Outcome<Doc> {
    if id !in d.edges then Err(NotFound) else Ok(d.(edges := d.edges - {id}))
  }

  // ---------------------------------------------------------------- groups

  /** Moves the nodes one after the other into the group, each check seeing the earlier moves. */
  function Adopt(nodes: map<string, Node>, ids: seq<string>, group: string): Outcome<map<string, Node>> {
    if ids == [] then Ok(nodes)
    else
      var before := Adopt(nodes, ids[..|ids| - 1], group);
      var id := ids[|ids| - 1];
      if before.Err? then before
      else if id !in before.value then Err(NotFound)
      else if id == group || before.value[id].ty == "group" then Err(InvalidSpec)
      else
        var check := CheckParent(before.value, id, group);
        if check.Fail? then Err(check.code) else Ok(before.value[id := before.value[id].(parentId := group)])
  }

  datatype Box = Box(minX: real, minY: real, maxX: real, maxY: real)

  function MinReal(a: real, b: real): real { if a < b then a else b }

  function MaxReal(a: real, b: real): real { if a > b then a else b }

  function Grow(box: Option<Box>, r: Rect): Option<Box> {
    match box
    case None => Some(Box(r.x, r.y, r.x + r.w, r.y + r.h))
    case Some(b) => Some(Box(MinReal(b.minX, r.x), MinReal(b.minY, r.y), MaxReal(b.maxX, r.x + r.w), MaxReal(b.maxY, r.y + r.h)))
  }

  /** The bounding box of the listed nodes. */
  function BoxOf(nodes: map<string, Node>, ids: seq<string>): Option<Box> {
    if ids == [] then None
    else
      var box := BoxOf(nodes, ids[..|ids| - 1]);
      var id := ids[|ids| - 1];
      if id in nodes then Grow(box, nodes[id].rect) else box
  }

  const GroupPad := 24.0
  const GroupHeader := 28.0

  /** The rectangle a group takes: the given one, or the padded bounding box. */
  function RectAround(own: Rect, given: Option<Rect>, box: Option<Box>): Rect {
    if given.Some? then given.value
    else
      match box
      case None => own
      case Some(b) => Rect(b.minX - GroupPad, b.minY - GroupPad - GroupHeader,
                           (b.maxX - b.minX) + GroupPad * 2.0, (b.maxY - b.minY) + GroupPad * 2.0 + GroupHeader)
  }

  function GroupRect(nodes: map<string, Node>, ids: seq<string>, group: string, given: Option<Rect>): Rect
    requires group in nodes
  {
    RectAround(nodes[group].rect, given, BoxOf(nodes, ids))
  }

  function ApplyGroup(d: Doc, ids: seq<string>, group: string, given: Option<Rect>): Outcome<Doc> {
    if ids == [] then Err(InvalidSpec)
    else if group == "" then Err(InvalidId)
    else if group !in d.nodes || d.nodes[group].ty != "group" then Err(NotFound)
    else
      var moved := Adopt(d.nodes, ids, group);
      if moved.Err? then Err(moved.code)
      else
        var r := GroupRect(d.nodes, ids, group, given);
        if RectOk(r) then Ok(d.(nodes := moved.value[group := d.nodes[group].(rect := r)]))
        else Ok(d.(nodes := moved.value))
  }

  ghost function ApplyUngroup(d: Doc, group: string, keep: bool): Outcome<Doc> {
    if group !in d.nodes || d.nodes[group].ty != "group" then Err(NotFound)
    else if keep then Ok(d.(nodes := Orphaned(d.nodes, group)))
    else Ok(d.(nodes := d.nodes - ChildIds(d.nodes, group) - {group}, edges := WithoutIncident(d.edges, group)))
  }

  function ApplySetParent(d: Doc, id: string, parent: string): Outcome<Doc> {
    if id !in d.nodes then Err(NotFound)
    else
      var check := CheckParent(d.nodes, id, parent);
      if check.Fail? then Err(check.code)
      else if parent != "" && !RectOk(d.nodes[id].rect) then Err(InvalidGeometry)
      else Ok(d.(nodes := d.nodes[id := d.nodes[id].(parentId := parent)]))
  }

  // ---------------------------------------------------------------- canvas-wide

  function ApplySetViewport(d: Doc, v: Viewport): Outcome<Doc> {
    if !ViewportOk(v) then Err(InvalidGeometry) else Ok(d.(viewport := v))
  }

  predicate BackgroundOk(s: string) {
    s in {"lines", "dots", "blank"}
  }

  predicate SettingOk(key: string, v: Value) {
    if key == "background" then v.Str? && BackgroundOk(v.s)
    else key in {"imageInfo", "gridSnap", "readOnly", "freeResize"} && v.Bool?
  }

  function Setting(key: string, patch: map<string, Value>, was: bool): bool {
    if key in patch && patch[key].Bool? then patch[key].b else was
  }

  function PatchedSettings(s: Settings, patch: map<string, Value>): Settings {
    Settings(
      if "background" in patch && patch["background"].Str? then patch["background"].s else s.background,
      Setting("imageInfo", patch, s.imageInfo), Setting("gridSnap", patch, s.gridSnap),
      Setting("readOnly", patch, s.readOnly), Setting("freeResize", patch, s.freeResize))
  }

  function WithSetting(s: Settings, key: string, v: Value): Settings
    requires SettingOk(key, v)
  {
    if key == "background" then s.(background := v.s)
    else if key == "imageInfo" then s.(imageInfo := v.b)
    else if key == "gridSnap" then s.(gridSnap := v.b)
    else if key == "readOnly" then s.(readOnly := v.b)
    else s.(freeResize := v.b)
  }

  function MergedSettings(s: Settings, patch: map<string, Value>): Outcome<Settings> {
    if exists k :: k in patch && !SettingOk(k, patch[k]) then Err(InvalidSpec) else Ok(PatchedSettings(s, patch))
  }

  function ApplySetSettings(d: Doc, patch: map<string, Value>): Outcome<Doc> {
    if |patch| == 0 then Err(InvalidSpec)
    else
      var next := MergedSettings(d.settings, patch);
      if next.Err? then Err(next.code) else Ok(d.(settings := next.value))
  }

  // ---------------------------------------------------------------- dispatch

  ghost function ApplyOp(table: Table, d: Doc, op: Op, who: Stamp): Outcome<Doc> {
    match op
    case AddNode(n) => ApplyAddNode(table, d, n)
    case RemoveNode(id, cascade) => ApplyRemoveNode(d, id, Default(cascade, true))
    case MoveNode(id, x, y, delta) => ApplyMoveNode(d, id, x, y, delta)
    case ResizeNode(id, w, h, keepAspect) => ApplyResizeNode(d, id, w, h, keepAspect)
    case SetTitle(id, title) => ApplySetTitle(d, id, title)
    case SetSpec(id, patch, unset, meta, metaUnset) => ApplySetSpec(table, d, id, patch, unset, meta, metaUnset)
    case SetState(id, state, result, error) => ApplySetState(d, id, state, result, error)
    case AddEdge(e) => ApplyAddEdge(d, e, who)
    case RemoveEdge(id) => ApplyRemoveEdge(d, id)
    case Group(ids, group, _, rect) => ApplyGroup(d, ids, group, rect)
    case Ungroup(group, keep) => ApplyUngroup(d, group, Default(keep, true))
    case SetViewport(v) => ApplySetViewport(d, v)
    case SetSettings(patch) => ApplySetSettings(d, patch)
    case SetParent(id, parent) => ApplySetParent(d, id, parent)
  }

  /** All operations in order; the first rejection rejects the whole list. */
  ghost function ApplyAll(table: Table, d: Doc, ops: seq<Op>, who: Stamp): Outcome<Doc> {
    if ops == [] then Ok(d)
    else
      var before := ApplyAll(table, d, ops[..|ops| - 1], who);
      if before.Err? then before else ApplyOp(table, before.value, ops[|ops| - 1], who)
  }

  // ---------------------------------------------------------------- inverses

  /** The recorded inverse of one operation: a single operation, or a list written as one entry. */
  datatype Inverse = One(op: Op) | Many(ops: seq<Op>)

  function SetParents(ids: seq<string>, parent: string): seq<Op> {
    seq(|ids|, i requires 0 <= i < |ids| => SetParent(ids[i], parent))
  }

  function AddEdges(es: seq<Edge>): seq<Op> {
    seq(|es|, i requires 0 <= i < |es| => AddEdge(es[i]))
  }

  /** `es` lists the elements of `s`, each once, in some order. */
  ghost predicate Enumerates<T(!new)>(es: seq<T>, s: set<T>) {
    Distinct(es) && forall e :: e in es <==> e in s
  }

  /** What Adopt overwrites: the parent each node had at its turn. */
  function AdoptInverse(nodes: map<string, Node>, ids: seq<string>, group: string): seq<Op> {
    if ids == [] then []
    else
      var before := Adopt(nodes, ids[..|ids| - 1], group);
      var id := ids[|ids| - 1];
      AdoptInverse(nodes, ids[..|ids| - 1], group)
      + (if before.Ok? && id in before.value then [SetParent(id, before.value[id].parentId)] else [])
  }

  function SettingsPatch(s: Settings): map<string, Value> {
    map["background" := Str(s.background), "imageInfo" := Bool(s.imageInfo), "gridSnap" := Bool(s.gridSnap),
        "readOnly" := Bool(s.readOnly), "freeResize" := Bool(s.freeResize)]
  }

  /** The incident edges of a removed node are recorded in no particular order. */
  ghost predicate RemoveNodeInverse(d: Doc, id: string, inv: Inverse)
    requires id in d.nodes
  {
    exists es :: Enumerates(es, IncidentEdges(d.edges, id)) &&
      inv == Many([AddNode(d.nodes[id])] + SetParents(ChildrenOf(d.nodes, id), id) + AddEdges(es))
  }

  /** A spec change records the whole old spec, and the keys the change dropped in some order. */
  ghost predicate SetSpecInverse(id: string, spec: map<string, Value>, patch: map<string, Value>,
                                 unset: seq<string>, inv: Inverse) {
    exists lost :: Enumerates(lost, spec.Keys - (Without(spec, unset) + patch).Keys)
                   && inv == One(SetSpec(id, spec, lost, map[], []))
  }

  /** The keys of `m` that the unset list removes, in list order. */
  function Removed(m: map<string, Value>, keys: seq<string>): seq<string> {
    if keys == [] then []
    else
      var k := keys[|keys| - 1];
      Removed(m, keys[..|keys| - 1]) + (if k in m && k !in keys[..|keys| - 1] then [k] else [])
  }

  /** `inv` may be recorded when `op` is accepted on `d`. */
  ghost predicate IsInverse(d: Doc, op: Op, inv: Inverse) {
    match op
    case AddNode(n) => inv == One(RemoveNode(n.id, Some(true)))
    case RemoveNode(id, _) => id in d.nodes && RemoveNodeInverse(d, id, inv)
    case MoveNode(id, _, _, _) => id in d.nodes && inv == One(MoveNode(id, d.nodes[id].rect.x, d.nodes[id].rect.y, false))
    case ResizeNode(id, _, _, _) => id in d.nodes && inv == One(ResizeNode(id, d.nodes[id].rect.w, d.nodes[id].rect.h, false))
    case SetTitle(id, _) => id in d.nodes && inv == One(SetTitle(id, d.nodes[id].title))
    case SetSpec(id, patch, unset, meta, metaUnset) =>
      id in d.nodes &&
      if |meta| > 0 || |metaUnset| > 0 then
        inv == One(SetSpec(id, map[], [], d.nodes[id].meta, Removed(d.nodes[id].meta, metaUnset)))
      else SetSpecInverse(id, d.nodes[id].spec, patch, unset, inv)
    case SetState(id, _, _, _) =>
      id in d.nodes && inv == One(SetState(id, d.nodes[id].state, d.nodes[id].result, d.nodes[id].error))
    case AddEdge(e) => inv == One(RemoveEdge(e.id))
    case RemoveEdge(id) => id in d.edges && inv == One(AddEdge(d.edges[id]))
    case Group(ids, group, _, rect) =>
      group in d.nodes && inv == Many(AdoptInverse(d.nodes, ids, group) +
        (if RectOk(GroupRect(d.nodes, ids, group, rect)) then
           [ResizeNode(group, d.nodes[group].rect.w, d.nodes[group].rect.h, false)] else []))
    case Ungroup(group, _) => inv == Many(SetParents(ChildrenOf(d.nodes, group), group))
    case SetViewport(_) => inv == One(SetViewport(d.viewport))
    case SetSettings(_) => inv == One(SetSettings(SettingsPatch(d.settings)))
    case SetParent(id, _) => id in d.nodes && inv == One(SetParent(id, d.nodes[id].parentId))
  }
}
