/** Automatic rebase: which stale batches are merged, what merging never loses, and when order does not matter. */
module Rebase {
  import opened Outcomes
  import opened Documents
  import opened Schemas
  import opened Operations
  import opened WellFormed
  import opened Batches

  /** What an in-flight operation touched. */
  datatype Touch =
    | TNode(id: string) | TGeometry(id: string) | TSpec(id: string) | TTitle(id: string) | TState(id: string)
    | TEdge(id: string) | TParent(id: string) | TGlobal

  function Touches(op: Op): set<Touch> {
    match op
    case AddNode(n) => {TNode(n.id)}
    case RemoveNode(id, _) => {TNode(id)}
    case MoveNode(id, _, _, _) => {TGeometry(id)}
    case ResizeNode(id, _, _, _) => {TGeometry(id)}
    case SetSpec(id, _, _, _, _) => {TSpec(id)}
    case SetTitle(id, _) => {TTitle(id)}
    case SetState(id, _, _, _) => {TState(id)}
    case AddEdge(e) => {TEdge(e.id)}
    case RemoveEdge(id) => {TEdge(id)}
    case SetParent(id, _) => {TParent(id)}
    case Group(ids, _, _, _) => set id | id in ids :: TParent(id)
    case _ => {TGlobal}
  }

  function TouchedBy(ops: seq<Op>): set<Touch> {
    set op, t | op in ops && t in Touches(op) :: t
  }

  /** Whether an incoming operation may not be merged over what was touched meanwhile. */
  predicate Blocked(op: Op, touched: set<Touch>) {
    match op
    case AddNode(n) => TNode(n.id) in touched
    case RemoveNode(id, _) => TNode(id) in touched || TSpec(id) in touched || TGeometry(id) in touched
    case MoveNode(id, _, _, _) => TSpec(id) in touched || TNode(id) in touched || TTitle(id) in touched
    case ResizeNode(id, _, _, _) => TSpec(id) in touched || TNode(id) in touched
    case SetSpec(id, _, _, _, _) => TSpec(id) in touched || TNode(id) in touched
    case SetTitle(id, _) => TTitle(id) in touched || TNode(id) in touched
    case SetState(id, _, _, _) => TState(id) in touched || TNode(id) in touched
    case AddEdge(e) => TNode(e.to.nodeId) in touched
    case RemoveEdge(_) => TNode("") in touched
    case SetParent(id, _) => TParent(id) in touched || TNode(id) in touched
    case _ => true
  }

  ghost predicate MayRebase(incoming: seq<Op>, inflight: seq<Op>) {
    TGlobal !in TouchedBy(inflight) && forall i :: 0 <= i < |incoming| ==> !Blocked(incoming[i], TouchedBy(inflight))
  }

  function KindName(op: Op): string {
    match op
    case AddNode(_) => "add_node"
    case RemoveNode(_, _) => "remove_node"
    case MoveNode(_, _, _, _) => "move_node"
    case ResizeNode(_, _, _, _) => "resize_node"
    case SetTitle(_, _) => "set_title"
    case SetSpec(_, _, _, _, _) => "set_spec"
    case SetState(_, _, _, _) => "set_state"
    case AddEdge(_) => "add_edge"
    case RemoveEdge(_) => "remove_edge"
    case Group(_, _, _, _) => "group"
    case Ungroup(_, _) => "ungroup"
    case SetViewport(_) => "set_viewport"
    case SetSettings(_) => "set_settings"
    case SetParent(_, _) => "set_parent"
  }

  method Rebaseable(incoming: seq<Op>, inflight: seq<Op>) returns (ok: bool, kinds: seq<string>)
    ensures ok <==> MayRebase(incoming, inflight)
    ensures |kinds| == |inflight| && forall i :: 0 <= i < |kinds| ==> kinds[i] == KindName(inflight[i])
  {
    hide Touches, Blocked, KindName;
    kinds := [];
    var touched: set<Touch> := {};
    var i := 0;
    while i < |inflight|
      invariant 0 <= i <= |inflight|
      invariant touched == TouchedBy(inflight[..i])
      invariant |kinds| == i && forall j :: 0 <= j < i ==> kinds[j] == KindName(inflight[j])
    {
      kinds := kinds + [KindName(inflight[i])];
      TouchedOneMore(inflight, i);
      touched := touched + Touches(inflight[i]);
      i := i + 1;
    }
    assert inflight[..i] == inflight;
    if TGlobal in touched {
      return false, kinds;
    }
    i := 0;
    while i < |incoming|
      invariant 0 <= i <= |incoming|
      invariant forall j :: 0 <= j < i ==> !Blocked(incoming[j], touched)
    {
      if Blocked(incoming[i], touched) {
        return false, kinds;
      }
      i := i + 1;
    }
    return true, kinds;
  }

  lemma TouchedOneMore(ops: seq<Op>, i: nat)
    requires i < |ops|
    ensures TouchedBy(ops[..i + 1]) == TouchedBy(ops[..i]) + Touches(ops[i])
  {
    assert ops[..i + 1] == ops[..i] + [ops[i]];
  }

  lemma TouchedMember(ops: seq<Op>, op: Op, t: Touch)
    requires op in ops && t in Touches(op)
    ensures t in TouchedBy(ops)
  {
  }

  // ---------------------------------------------------------------- no lost write

  /** The independent parts of a node an operation can write. */
  datatype Channel = Title | Configuration | Status

  predicate SameChannel(a: Node, b: Node, c: Channel) {
    match c
    case Title => a.title == b.title
    case Configuration => a.spec == b.spec && a.meta == b.meta
    case Status => a.state == b.state && a.result == b.result && a.error == b.error
  }

  predicate Writes(op: Op, id: string, c: Channel) {
    match op
    case AddNode(n) => n.id == id
    case SetTitle(x, _) => x == id && c.Title?
    case SetSpec(x, _, _, _, _) => x == id && c.Configuration?
    case SetState(x, _, _, _) => x == id && c.Status?
    case _ => false
  }

  predicate Removes(op: Op, id: string) {
    op.RemoveNode? && op.id == id
  }

  /** An unblocked change of a node keeps the channels others wrote. */
  lemma ChangeKeepsChannel(table: Table, n: Node, op: Op, touched: set<Touch>, written: Op, c: Channel)
    requires ChangesOneNode(op) && !Blocked(op, touched) && Writes(written, op.id, c) && Touches(written) <= touched
    requires Change(table, n, op).Ok?
    ensures SameChannel(Change(table, n, op).value, n, c)
  {
    hide PatchedSpec, PatchedMeta, ValidateRect, ValidateSpec;
  }

  /** Adding, removing, reparenting and linking leave the channels of the other nodes alone. */
  lemma LinkingKeepsChannel(table: Table, d: Doc, op: Op, who: Stamp, id: string, c: Channel)
    requires op.AddNode? || op.RemoveNode? || op.AddEdge? || op.RemoveEdge? || op.SetParent?
    requires ApplyOp(table, d, op, who).Ok? && id in d.nodes && !Removes(op, id)
    ensures id in ApplyOp(table, d, op, who).value.nodes
    ensures SameChannel(ApplyOp(table, d, op, who).value.nodes[id], d.nodes[id], c)
  {
    hide ValidateSpec, ChainAvoids;
  }

  lemma UnblockedKinds(op: Op, touched: set<Touch>)
    requires !Blocked(op, touched)
    ensures ChangesOneNode(op) || op.AddNode? || op.RemoveNode? || op.AddEdge? || op.RemoveEdge? || op.SetParent?
  {
  }

  lemma OtherNodeKept(d: Doc, id: string, n: Outcome<Node>, other: string, c: Channel)
    requires other in d.nodes && other != id && PutNode(d, id, n).Ok?
    ensures other in PutNode(d, id, n).value.nodes && SameChannel(PutNode(d, id, n).value.nodes[other], d.nodes[other], c)
  {
  }

  /** An unblocked operation that does not remove the node leaves a written channel of it as it is. */
  lemma UnblockedKeepsChannel(table: Table, d: Doc, op: Op, who: Stamp, touched: set<Touch>, written: Op,
                              id: string, c: Channel)
    requires !Blocked(op, touched) && Writes(written, id, c) && Touches(written) <= touched
    requires ApplyOp(table, d, op, who).Ok? && id in d.nodes && !Removes(op, id)
    ensures id in ApplyOp(table, d, op, who).value.nodes
    ensures SameChannel(ApplyOp(table, d, op, who).value.nodes[id], d.nodes[id], c)
  {
    hide ApplyOp, Change, Blocked, SameChannel, Writes, Touches;
    UnblockedKinds(op, touched);
    if ChangesOneNode(op) {
      ChangeIsApplied(table, d, op, who);
      if op.id == id {
        ChangeKeepsChannel(table, d.nodes[id], op, touched, written, c);
      } else {
        OtherNodeKept(d, op.id, Change(table, d.nodes[op.id], op), id, c);
      }
    } else {
      LinkingKeepsChannel(table, d, op, who, id, c);
    }
  }

  /**
   * A merged batch never changes a title, configuration, meta, state, result or error that an
   * in-flight operation wrote, on any node the batch itself does not remove.
   */
  lemma {:induction false} RebaseLosesNoWrite(table: Table, d: Doc, incoming: seq<Op>, inflight: seq<Op>, who: Stamp,
                                              written: Op, id: string, c: Channel)
    requires MayRebase(incoming, inflight)
    requires written in inflight && Writes(written, id, c)
    requires id in d.nodes && forall i :: 0 <= i < |incoming| ==> !Removes(incoming[i], id)
    requires ApplyAll(table, d, incoming, who).Ok?
    ensures id in ApplyAll(table, d, incoming, who).value.nodes
    ensures SameChannel(ApplyAll(table, d, incoming, who).value.nodes[id], d.nodes[id], c)
    decreases |incoming|
  {
    hide ApplyOp, Blocked, Touches;
    if incoming != [] {
      var n := |incoming| - 1;
      RebaseLosesNoWrite(table, d, incoming[..n], inflight, who, written, id, c);
      UnblockedKeepsChannel(table, ApplyAll(table, d, incoming[..n], who).value, incoming[n], who, TouchedBy(inflight), written, id, c);
    }
  }

  // ---------------------------------------------------------------- the diamond

  /** An operation that changes one node, as a change of that node. */
  function Change(table: Table, n: Node, op: Op): Outcome<Node>
    requires ChangesOneNode(op)
  {
    match op
    case MoveNode(_, x, y, delta) => MovedNode(n, x, y, delta)
    case ResizeNode(_, w, h, keepAspect) => ResizedNode(n, w, h, keepAspect)
    case SetTitle(_, title) => TitledNode(n, title)
    case SetSpec(_, patch, unset, meta, metaUnset) => ConfiguredNode(table, n, patch, unset, meta, metaUnset)
    case SetState(_, state, result, error) => StatedNode(n, state, result, error)
  }

  lemma ChangeIsApplied(table: Table, d: Doc, op: Op, who: Stamp)
    requires ChangesOneNode(op)
    ensures ApplyOp(table, d, op, who)
         == if op.id !in d.nodes then Err(NotFound) else PutNode(d, op.id, Change(table, d.nodes[op.id], op))
  {
  }

  ghost predicate RectsInRange(d: Doc) {
    forall k :: k in d.nodes ==> RectOk(d.nodes[k].rect)
  }

  /** Two changes of the same part of the same node. */
  predicate Clash(a: Op, b: Op)
    requires ChangesOneNode(a) && ChangesOneNode(b)
  {
    a.id == b.id &&
    ((a.MoveNode? && b.MoveNode?) || (a.ResizeNode? && b.ResizeNode?) || (a.SetTitle? && b.SetTitle?) ||
     (a.SetSpec? && b.SetSpec?) || (a.SetState? && b.SetState?))
  }

  /** Both rejected, or both accepted with the same result. */
  ghost predicate Agree<T>(a: Outcome<T>, b: Outcome<T>) {
    (a.Err? && b.Err?) || (a.Ok? && a == b)
  }

  ghost function Both(table: Table, n: Node, a: Op, b: Op): Outcome<Node>
    requires ChangesOneNode(a) && ChangesOneNode(b)
  {
    var first := Change(table, n, a);
    if first.Err? then first else Change(table, first.value, b)
  }

  lemma MoveResizeCommute(table: Table, n: Node, a: Op, b: Op)
    requires a.MoveNode? && b.ResizeNode? && RectOk(n.rect)
    ensures Agree(Both(table, n, a, b), Both(table, n, b, a))
  {
    var r := n.rect;
    assert ResizedRect(MovedRect(r, a.x, a.y, a.delta), b.w, b.h, b.keepAspect)
        == MovedRect(ResizedRect(r, b.w, b.h, b.keepAspect), a.x, a.y, a.delta);
  }

  /** The part of a node a change reads and writes. */
  datatype Part = Geometry | Channel(channel: Channel)

  function PartOf(op: Op): Part
    requires ChangesOneNode(op)
  {
    match op
    case MoveNode(_, _, _, _) => Geometry
    case ResizeNode(_, _, _, _) => Geometry
    case SetTitle(_, _) => Part.Channel(Title)
    case SetSpec(_, _, _, _, _) => Part.Channel(Configuration)
    case SetState(_, _, _, _) => Part.Channel(Status)
  }

  predicate SamePart(a: Node, b: Node, p: Part) {
    match p
    case Geometry => a.rect == b.rect
    case Channel(c) => SameChannel(a, b, c)
  }

  /** What no change of this kind writes. */
  predicate SameBase(a: Node, b: Node) {
    a.id == b.id && a.ty == b.ty && a.z == b.z && a.parentId == b.parentId && a.ports == b.ports && a.locked == b.locked
  }

  lemma PartsMakeNode(a: Node, b: Node)
    requires SameBase(a, b) && forall p: Part :: SamePart(a, b, p)
    ensures a == b
  {
    assert SamePart(a, b, Geometry);
    assert SamePart(a, b, Part.Channel(Title)) && SamePart(a, b, Part.Channel(Configuration)) && SamePart(a, b, Part.Channel(Status));
  }

  lemma ChangeFrame(table: Table, n: Node, op: Op, p: Part)
    requires ChangesOneNode(op) && Change(table, n, op).Ok?
    ensures SameBase(Change(table, n, op).value, n)
    ensures p != PartOf(op) ==> SamePart(Change(table, n, op).value, n, p)
  {
  }

  lemma ChangeLocal(table: Table, n: Node, m: Node, op: Op)
    requires ChangesOneNode(op) && SamePart(n, m, PartOf(op)) && n.ty == m.ty
    ensures Change(table, n, op).Ok? == Change(table, m, op).Ok?
    ensures Change(table, n, op).Ok? ==> SamePart(Change(table, n, op).value, Change(table, m, op).value, PartOf(op))
  {
    hide PatchedSpec, PatchedMeta;
  }

  /** Changes of different parts of one node can be made in either order. */
  lemma ChangesCommute(table: Table, n: Node, a: Op, b: Op)
    requires ChangesOneNode(a) && ChangesOneNode(b) && a.id == b.id && !Clash(a, b) && RectOk(n.rect)
    ensures Agree(Both(table, n, a, b), Both(table, n, b, a))
  {
    if a.MoveNode? && b.ResizeNode? {
      MoveResizeCommute(table, n, a, b);
    } else if a.ResizeNode? && b.MoveNode? {
      MoveResizeCommute(table, n, b, a);
    } else {
      PartsCommute(table, n, a, b);
    }
  }

  /** Part by part, the order of two changes of different parts does not matter. */
  lemma PartAgrees(table: Table, n: Node, a: Op, b: Op, p: Part)
    requires ChangesOneNode(a) && ChangesOneNode(b) && PartOf(a) != PartOf(b)
    requires Change(table, n, a).Ok? && Change(table, n, b).Ok?
    requires Change(table, Change(table, n, a).value, b).Ok? && Change(table, Change(table, n, b).value, a).Ok?
    ensures var xb, ya := Change(table, Change(table, n, a).value, b).value, Change(table, Change(table, n, b).value, a).value;
            SamePart(xb, ya, p) && SameBase(xb, ya)
  {
    hide Change;
    var x, y := Change(table, n, a).value, Change(table, n, b).value;
    ChangeFrame(table, n, a, p);
    ChangeFrame(table, n, b, p);
    ChangeFrame(table, x, b, p);
    ChangeFrame(table, y, a, p);
    if p == PartOf(b) {
      ChangeLocal(table, x, n, b);
    } else if p == PartOf(a) {
      ChangeLocal(table, y, n, a);
    }
  }

  lemma PartsCommute(table: Table, n: Node, a: Op, b: Op)
    requires ChangesOneNode(a) && ChangesOneNode(b) && PartOf(a) != PartOf(b)
    ensures Agree(Both(table, n, a, b), Both(table, n, b, a))
  {
    hide Change, SamePart, SameBase, ChangesOneNode;
    var x, y := Change(table, n, a), Change(table, n, b);
    if x.Ok? {
      PartUntouched(table, n, a, b);
    }
    if y.Ok? {
      PartUntouched(table, n, b, a);
    }
    if x.Ok? && y.Ok? {
      var xb, ya := Change(table, x.value, b), Change(table, y.value, a);
      forall p: Part
        ensures SamePart(xb.value, ya.value, p)
      {
        PartAgrees(table, n, a, b, p);
      }
      PartAgrees(table, n, a, b, Geometry);
      PartsMakeNode(xb.value, ya.value);
    }
  }

  /** A change succeeds on a node exactly when it does after a change of another part. */
  lemma PartUntouched(table: Table, n: Node, a: Op, b: Op)
    requires ChangesOneNode(a) && ChangesOneNode(b) && PartOf(a) != PartOf(b) && Change(table, n, a).Ok?
    ensures Change(table, Change(table, n, a).value, b).Ok? == Change(table, n, b).Ok?
  {
    hide Change;
    ChangeFrame(table, n, a, PartOf(b));
    ChangeLocal(table, Change(table, n, a).value, n, b);
  }

  ghost function Pair(table: Table, d: Doc, a: Op, wa: Stamp, b: Op, wb: Stamp): Outcome<Doc> {
    var first := ApplyOp(table, d, a, wa);
    if first.Err? then first else ApplyOp(table, first.value, b, wb)
  }

  lemma SameNodePair(table: Table, d: Doc, a: Op, wa: Stamp, b: Op, wb: Stamp)
    requires ChangesOneNode(a) && ChangesOneNode(b) && a.id == b.id && a.id in d.nodes
    ensures Pair(table, d, a, wa, b, wb) == PutNode(d, a.id, Both(table, d.nodes[a.id], a, b))
  {
    hide ApplyOp, Change;
    ChangeIsApplied(table, d, a, wa);
    var x := Change(table, d.nodes[a.id], a);
    if x.Ok? {
      var mid := d.(nodes := d.nodes[a.id := x.value]);
      ChangeIsApplied(table, mid, b, wb);
      var y := Change(table, x.value, b);
      if y.Ok? {
        assert mid.nodes[b.id := y.value] == d.nodes[a.id := y.value];
      }
    }
  }

  lemma OtherNodePair(table: Table, d: Doc, a: Op, wa: Stamp, b: Op, wb: Stamp)
    requires ChangesOneNode(a) && ChangesOneNode(b) && a.id != b.id && a.id in d.nodes && b.id in d.nodes
    ensures var x := Change(table, d.nodes[a.id], a); var y := Change(table, d.nodes[b.id], b);
      Pair(table, d, a, wa, b, wb)
        == if x.Err? then Err(x.code) else if y.Err? then Err(y.code)
           else Ok(d.(nodes := d.nodes[a.id := x.value][b.id := y.value]))
  {
    hide ApplyOp, Change;
    ChangeIsApplied(table, d, a, wa);
    var x := Change(table, d.nodes[a.id], a);
    if x.Ok? {
      ChangeIsApplied(table, d.(nodes := d.nodes[a.id := x.value]), b, wb);
    }
  }

  lemma MissingNodePair(table: Table, d: Doc, a: Op, wa: Stamp, b: Op, wb: Stamp)
    requires ChangesOneNode(a) && ChangesOneNode(b) && (a.id !in d.nodes || b.id !in d.nodes)
    ensures Pair(table, d, a, wa, b, wb).Err?
  {
    hide ApplyOp, Change;
    ChangeIsApplied(table, d, a, wa);
    if a.id in d.nodes {
      var x := Change(table, d.nodes[a.id], a);
      if x.Ok? {
        ChangeIsApplied(table, d.(nodes := d.nodes[a.id := x.value]), b, wb);
      }
    }
  }

  lemma OpsCommute(table: Table, d: Doc, a: Op, wa: Stamp, b: Op, wb: Stamp)
    requires RectsInRange(d) && ChangesOneNode(a) && ChangesOneNode(b) && !Clash(a, b)
    ensures Agree(Pair(table, d, a, wa, b, wb), Pair(table, d, b, wb, a, wa))
  {
    hide Pair, Change, Both;
    if a.id !in d.nodes || b.id !in d.nodes {
      MissingNodePair(table, d, a, wa, b, wb);
      MissingNodePair(table, d, b, wb, a, wa);
    } else if a.id == b.id {
      SameNodePair(table, d, a, wa, b, wb);
      SameNodePair(table, d, b, wb, a, wa);
      ChangesCommute(table, d.nodes[a.id], a, b);
    } else {
      OtherNodePair(table, d, a, wa, b, wb);
      OtherNodePair(table, d, b, wb, a, wa);
      var x, y := Change(table, d.nodes[a.id], a), Change(table, d.nodes[b.id], b);
      if x.Ok? && y.Ok? {
        assert d.nodes[a.id := x.value][b.id := y.value] == d.nodes[b.id := y.value][a.id := x.value];
      }
    }
  }

  lemma OpKeepsRects(table: Table, d: Doc, op: Op, who: Stamp)
    requires RectsInRange(d) && ChangesOneNode(op) && ApplyOp(table, d, op, who).Ok?
    ensures RectsInRange(ApplyOp(table, d, op, who).value)
  {
    hide ApplyOp;
    ChangeIsApplied(table, d, op, who);
    ChangeKeepsRect(table, d.nodes[op.id], op);
  }

  lemma ChangeKeepsRect(table: Table, n: Node, op: Op)
    requires RectOk(n.rect) && ChangesOneNode(op) && Change(table, n, op).Ok?
    ensures RectOk(Change(table, n, op).value.rect)
  {
  }

  predicate OnlyChanges(ops: seq<Op>) {
    forall i :: 0 <= i < |ops| ==> ChangesOneNode(ops[i])
  }

  predicate NoClash(a: Op, ops: seq<Op>)
    requires ChangesOneNode(a) && OnlyChanges(ops)
  {
    forall i :: 0 <= i < |ops| ==> !Clash(a, ops[i])
  }

  /** A list applied to the outcome of an earlier one. */
  ghost function Then(table: Table, r: Outcome<Doc>, ops: seq<Op>, who: Stamp): Outcome<Doc> {
    if r.Err? then r else ApplyAll(table, r.value, ops, who)
  }

  lemma {:induction false} ListKeepsRects(table: Table, d: Doc, ops: seq<Op>, who: Stamp)
    requires RectsInRange(d) && OnlyChanges(ops) && ApplyAll(table, d, ops, who).Ok?
    ensures RectsInRange(ApplyAll(table, d, ops, who).value)
    decreases |ops|
  {
    hide ApplyOp, RectsInRange;
    if ops != [] {
      ListKeepsRects(table, d, ops[..|ops| - 1], who);
      OpKeepsRects(table, ApplyAll(table, d, ops[..|ops| - 1], who).value, ops[|ops| - 1], who);
    }
  }

  /** One operation can be moved across a whole list. */
  lemma {:induction false} OneCrossesList(table: Table, d: Doc, a: Op, wa: Stamp, ops: seq<Op>, wb: Stamp)
    requires RectsInRange(d) && ChangesOneNode(a) && OnlyChanges(ops) && NoClash(a, ops)
    ensures Agree(Then(table, ApplyOp(table, d, a, wa), ops, wb),
                  Then(table, ApplyAll(table, d, ops, wb), [a], wa))
    decreases |ops|
  {
    hide ApplyOp, RectsInRange, Clash;
    ApplyAllOneHidden(table, d, a, wa);
    if ops != [] {
      var front, b := ops[..|ops| - 1], ops[|ops| - 1];
      OneCrossesList(table, d, a, wa, front, wb);
      var mid := ApplyAll(table, d, front, wb);
      if mid.Ok? {
        ListKeepsRects(table, d, front, wb);
        ApplyAllOneHidden(table, mid.value, a, wa);
        OpsCommute(table, mid.value, a, wa, b, wb);
        var after := ApplyOp(table, mid.value, b, wb);
        if after.Ok? {
          ApplyAllOneHidden(table, after.value, a, wa);
        }
      }
    }
  }

  lemma ApplyAllOneHidden(table: Table, d: Doc, op: Op, who: Stamp)
    ensures ApplyAll(table, d, [op], who) == ApplyOp(table, d, op, who)
  {
    ApplyAllOne(table, d, op, who);
  }

  predicate NoClashes(incoming: seq<Op>, inflight: seq<Op>)
    requires OnlyChanges(incoming) && OnlyChanges(inflight)
  {
    forall i :: 0 <= i < |incoming| ==> NoClash(incoming[i], inflight)
  }

  lemma {:induction false} ListsCommute(table: Table, d: Doc, a: seq<Op>, wa: Stamp, b: seq<Op>, wb: Stamp)
    requires RectsInRange(d) && OnlyChanges(a) && OnlyChanges(b) && NoClashes(a, b)
    ensures Agree(Then(table, ApplyAll(table, d, b, wb), a, wa), Then(table, ApplyAll(table, d, a, wa), b, wb))
    decreases |a|
  {
    hide ApplyOp, RectsInRange, NoClash;
    if a == [] {
      assert ApplyAll(table, d, [], wa) == Ok(d);
    } else {
      var front, last := a[..|a| - 1], a[|a| - 1];
      ListsCommute(table, d, front, wa, b, wb);
      var mid := ApplyAll(table, d, front, wa);
      if mid.Ok? {
        ListKeepsRects(table, d, front, wa);
        OneCrossesList(table, mid.value, last, wa, b, wb);
        var crossed := ApplyAll(table, mid.value, b, wb);
        if crossed.Ok? {
          ApplyAllOneHidden(table, crossed.value, last, wa);
        }
      }
    }
  }

  /** Two moves, or two resizes, of one node: the clash the rebase check lets through. */
  predicate GeometryClash(incoming: seq<Op>, inflight: seq<Op>) {
    exists i, j :: 0 <= i < |incoming| && 0 <= j < |inflight| &&
      ((incoming[i].MoveNode? && inflight[j].MoveNode? && incoming[i].id == inflight[j].id) ||
       (incoming[i].ResizeNode? && inflight[j].ResizeNode? && incoming[i].id == inflight[j].id))
  }

  lemma UnblockedDoesNotClash(a: Op, b: Op, touched: set<Touch>)
    requires ChangesOneNode(a) && ChangesOneNode(b) && !Blocked(a, touched) && Touches(b) <= touched
    requires !(a.MoveNode? && b.MoveNode? && a.id == b.id) && !(a.ResizeNode? && b.ResizeNode? && a.id == b.id)
    ensures !Clash(a, b)
  {
  }

  /**
   * The rebase diamond: a merged batch and the in-flight operations it was merged over, all of them
   * changes of geometry, title, configuration or state and not both moving or both resizing one
   * node, are accepted in both orders or in neither, and lead to the same document.
   */
  lemma RebaseDiamond(table: Table, d: Doc, incoming: seq<Op>, wa: Stamp, inflight: seq<Op>, wb: Stamp)
    requires RectsInRange(d) && OnlyChanges(incoming) && OnlyChanges(inflight)
    requires MayRebase(incoming, inflight) && !GeometryClash(incoming, inflight)
    ensures Agree(Then(table, ApplyAll(table, d, inflight, wb), incoming, wa),
                  Then(table, ApplyAll(table, d, incoming, wa), inflight, wb))
  {
    hide ApplyAll, Blocked, Touches, Clash;
    forall i, j | 0 <= i < |incoming| && 0 <= j < |inflight|
      ensures !Clash(incoming[i], inflight[j])
    {
      forall t | t in Touches(inflight[j])
        ensures t in TouchedBy(inflight)
      {
        TouchedMember(inflight, inflight[j], t);
      }
      UnblockedDoesNotClash(incoming[i], inflight[j], TouchedBy(inflight));
    }
    ListsCommute(table, d, incoming, wa, inflight, wb);
  }

  // ---------------------------------------------------------------- the geometry clash

  predicate InRange(x: real, y: real) {
    CheckCoord(x).Pass? && CheckCoord(y).Pass?
  }

  predicate SizeOk(w: real, h: real) {
    SizeMin <= w <= SizeMax && SizeMin <= h <= SizeMax
  }

  /**
   * When two moves of one node agree in both orders. A rejected target or offset rejects both orders. Otherwise two
   * targets must be equal; two offsets must both stay in range, or neither, if their sum does; and an offset beside a
   * target must be zero, or lead out of range from the old position and from the target.
   */
  predicate MovesAgree(r: Rect, a: Op, b: Op)
    requires a.MoveNode? && b.MoveNode?
  {
    !InRange(a.x, a.y) || !InRange(b.x, b.y) ||
    if !a.delta && !b.delta then a.x == b.x && a.y == b.y
    else if a.delta && b.delta then
      InRange(r.x + a.x + b.x, r.y + a.y + b.y) ==> (InRange(r.x + a.x, r.y + a.y) <==> InRange(r.x + b.x, r.y + b.y))
    else
      var offset, target := if a.delta then a else b, if a.delta then b else a;
      (offset.x == 0.0 && offset.y == 0.0)
      || (!InRange(r.x + offset.x, r.y + offset.y) && !InRange(target.x + offset.x, target.y + offset.y))
  }

  /** The height that keeps the ratio of another size. */
  function ScaledHeight(w: real, fromW: real, fromH: real): real
    requires fromW > 0.0
  {
    fromH * (w / fromW)
  }

  predicate ScaledOk(w: real, fromW: real, fromH: real)
    requires fromW > 0.0
  {
    w > 0.0 && SizeOk(w, ScaledHeight(w, fromW, fromH))
  }

  /** Whether a resize is accepted on a node of this rectangle. */
  predicate ResizeOk(r: Rect, a: Op)
    requires a.ResizeNode? && r.w > 0.0
  {
    if a.keepAspect then ScaledOk(a.w, r.w, r.h) else SizeOk(a.w, a.h)
  }

  /**
   * When two resizes of one node agree in both orders. Two free resizes, or two that keep the ratio, must ask for the
   * same size unless one is rejected. A free one beside one that keeps the ratio must ask for the same width, unless the
   * free one is rejected, or the other is rejected from the old size and from the new one.
   */
  predicate ResizesAgree(r: Rect, a: Op, b: Op)
    requires a.ResizeNode? && b.ResizeNode? && RectOk(r)
  {
    if a.keepAspect == b.keepAspect then
      !ResizeOk(r, a) || !ResizeOk(r, b) || (a.w == b.w && (a.keepAspect || a.h == b.h))
    else
      var free, kept := if a.keepAspect then b else a, if a.keepAspect then a else b;
      !SizeOk(free.w, free.h) ||
      if ScaledOk(kept.w, r.w, r.h) then kept.w == free.w else !ScaledOk(kept.w, free.w, free.h)
  }

  predicate GeometryAgrees(r: Rect, a: Op, b: Op)
    requires (a.MoveNode? && b.MoveNode?) || (a.ResizeNode? && b.ResizeNode? && RectOk(r))
  {
    if a.MoveNode? then MovesAgree(r, a, b) else ResizesAgree(r, a, b)
  }

  function TargetX(r: Rect, a: Op): real
    requires a.MoveNode?
  {
    if a.delta then r.x + a.x else a.x
  }

  function TargetY(r: Rect, a: Op): real
    requires a.MoveNode?
  {
    if a.delta then r.y + a.y else a.y
  }

  lemma MoveIs(table: Table, n: Node, a: Op)
    requires a.MoveNode? && RectOk(n.rect)
    ensures Change(table, n, a).Ok? <==> InRange(a.x, a.y) && InRange(TargetX(n.rect, a), TargetY(n.rect, a))
    ensures Change(table, n, a).Ok? ==>
      Change(table, n, a).value == n.(rect := n.rect.(x := TargetX(n.rect, a), y := TargetY(n.rect, a)))
    ensures Change(table, n, a).Ok? ==> RectOk(Change(table, n, a).value.rect)
  {
  }

  lemma MovedTwice(table: Table, n: Node, a: Op, b: Op)
    requires a.MoveNode? && b.MoveNode? && RectOk(n.rect)
    ensures Agree(Both(table, n, b, a), Both(table, n, a, b)) <==> MovesAgree(n.rect, a, b)
  {
    hide Change;
    MoveIs(table, n, a);
    MoveIs(table, n, b);
    var x, y := Change(table, n, a), Change(table, n, b);
    if x.Ok? {
      MoveIs(table, x.value, b);
    }
    if y.Ok? {
      MoveIs(table, y.value, a);
    }
  }

  lemma ResizeIs(table: Table, n: Node, a: Op)
    requires a.ResizeNode? && RectOk(n.rect)
    ensures Change(table, n, a).Ok? <==> ResizeOk(n.rect, a)
    ensures Change(table, n, a).Ok? ==>
      Change(table, n, a).value == n.(rect := n.rect.(w := a.w, h := if a.keepAspect then ScaledHeight(a.w, n.rect.w, n.rect.h) else a.h))
  {
  }

  /** Scaling twice is scaling once, and scaling to the same width changes nothing. */
  lemma ScaledTwice(h: real, w: real, v: real, u: real)
    requires w > 0.0 && v > 0.0
    ensures ScaledHeight(u, v, ScaledHeight(v, w, h)) == ScaledHeight(u, w, h)
    ensures ScaledHeight(v, v, h) == h
  {
    var p, q := v / w, u / v;
    assert p * w == v && q * v == u;
    assert (q * p) * w == u by {
      assert (q * p) * w == q * (p * w);
    }
    assert q * p == u / w;
    assert (h * p) * q == h * (q * p);
    assert v / v == 1.0;
  }

  lemma ResizedFirst(table: Table, n: Node, a: Op, b: Op)
    requires a.ResizeNode? && b.ResizeNode? && RectOk(n.rect)
    ensures var h := if a.keepAspect then ScaledHeight(a.w, n.rect.w, n.rect.h) else a.h;
            var ok := ResizeOk(n.rect, a) && if b.keepAspect then ScaledOk(b.w, a.w, h) else SizeOk(b.w, b.h);
            && (Both(table, n, a, b).Ok? <==> ok)
            && (ok ==> Both(table, n, a, b).value
                       == n.(rect := n.rect.(w := b.w, h := if b.keepAspect then ScaledHeight(b.w, a.w, h) else b.h)))
  {
    hide Change, ScaledHeight;
    ResizeIs(table, n, a);
    if Change(table, n, a).Ok? {
      ResizeIs(table, Change(table, n, a).value, b);
    }
  }

  lemma ResizedAlike(table: Table, n: Node, a: Op, b: Op)
    requires a.ResizeNode? && b.ResizeNode? && RectOk(n.rect) && a.keepAspect == b.keepAspect
    ensures Agree(Both(table, n, b, a), Both(table, n, a, b)) <==> ResizesAgree(n.rect, a, b)
  {
    hide Change, Both, ScaledHeight;
    ResizedFirst(table, n, a, b);
    ResizedFirst(table, n, b, a);
    if a.keepAspect && a.w > 0.0 && b.w > 0.0 {
      ScaledTwice(n.rect.h, n.rect.w, a.w, b.w);
      ScaledTwice(n.rect.h, n.rect.w, b.w, a.w);
    }
  }

  lemma ResizedUnlike(table: Table, n: Node, free: Op, kept: Op)
    requires free.ResizeNode? && kept.ResizeNode? && RectOk(n.rect) && kept.keepAspect && !free.keepAspect
    ensures Agree(Both(table, n, free, kept), Both(table, n, kept, free)) <==> ResizesAgree(n.rect, kept, free)
  {
    hide Change, Both, ScaledHeight;
    ResizedFirst(table, n, free, kept);
    ResizedFirst(table, n, kept, free);
    if free.w > 0.0 {
      ScaledTwice(free.h, free.w, free.w, kept.w);
    }
  }

  lemma ResizedTwice(table: Table, n: Node, a: Op, b: Op)
    requires a.ResizeNode? && b.ResizeNode? && RectOk(n.rect)
    ensures Agree(Both(table, n, b, a), Both(table, n, a, b)) <==> ResizesAgree(n.rect, a, b)
  {
    hide Change, Both, RectOk, SizeOk, ScaledOk;
    if a.keepAspect == b.keepAspect {
      ResizedAlike(table, n, a, b);
    } else if a.keepAspect {
      ResizedUnlike(table, n, b, a);
    } else {
      ResizedUnlike(table, n, a, b);
    }
  }

  /**
   * The exclusion is needed: any two moves, and any two resizes, of one node are merged, and the two orders agree
   * exactly on the pairs `GeometryAgrees` names.
   */
  lemma MergedGeometryCommutesExactly(table: Table, d: Doc, a: Op, b: Op, wa: Stamp, wb: Stamp)
    requires (a.MoveNode? && b.MoveNode?) || (a.ResizeNode? && b.ResizeNode?)
    requires RectsInRange(d) && a.id in d.nodes && b.id == a.id
    ensures MayRebase([a], [b])
    ensures Agree(Pair(table, d, b, wb, a, wa), Pair(table, d, a, wa, b, wb)) <==> GeometryAgrees(d.nodes[a.id].rect, a, b)
  {
    OneTouch(b);
    hide ApplyOp, Both, Change, MovesAgree, ResizesAgree, RectOk;
    SameNodePair(table, d, a, wa, b, wb);
    SameNodePair(table, d, b, wb, a, wa);
    var n := d.nodes[a.id];
    if a.MoveNode? {
      MovedTwice(table, n, a, b);
    } else {
      ResizedTwice(table, n, a, b);
    }
    PutSame(d, a.id, Both(table, n, a, b), Both(table, n, b, a));
  }

  lemma OneTouch(b: Op)
    ensures TouchedBy([b]) == Touches(b)
  {
    TouchedOneMore([b], 0);
    assert [b][..0] == [] && [b][..1] == [b];
  }

  lemma PutSame(d: Doc, id: string, x: Outcome<Node>, y: Outcome<Node>)
    ensures Agree(PutNode(d, id, y), PutNode(d, id, x)) <==> Agree(y, x)
  {
    if x.Ok? && y.Ok? {
      assert d.nodes[id := x.value][id] == x.value && d.nodes[id := y.value][id] == y.value;
    }
  }
}
