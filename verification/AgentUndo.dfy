/** The agent's undo: it sends the recorded inverses in the order they were recorded, as one batch. */
module AgentUndo {
  import opened Outcomes
  import opened Documents
  import opened Schemas
  import opened Operations
  import opened WellFormed
  import opened Batches
  import opened CycleFreedom
  import opened Rebase
  import opened Undo

  /** The recorded entries as one batch; an entry that is itself a list does not decode as an operation. */
  function InOrder(inverse: seq<Inverse>): Outcome<seq<Op>> {
    if inverse == [] then Ok([])
    else
      var front := InOrder(inverse[..|inverse| - 1]);
      var last := inverse[|inverse| - 1];
      if front.Err? then front
      else if last.Many? then Err(UnknownField)
      else Ok(front.value + [last.op])
  }

  ghost function AgentUndoOutcome(table: Table, d: Doc, inverse: seq<Inverse>, who: Stamp): Outcome<Doc> {
    if inverse == [] then Err(InvalidRequest)
    else
      var ops := InOrder(inverse);
      if ops.Err? then Err(ops.code) else BatchOutcome(table, d, ops.value, who)
  }

  predicate AllOne(inverse: seq<Inverse>) {
    forall i :: 0 <= i < |inverse| ==> inverse[i].One?
  }

  /** The operations of single entries. */
  function SingleOps(inverse: seq<Inverse>): seq<Op>
    requires AllOne(inverse)
  {
    seq(|inverse|, i requires 0 <= i < |inverse| => inverse[i].op)
  }

  lemma {:induction false} InOrderIs(inverse: seq<Inverse>)
    ensures InOrder(inverse) == if AllOne(inverse) then Ok(SingleOps(inverse)) else Err(UnknownField)
    decreases |inverse|
  {
    if inverse != [] {
      var n := |inverse| - 1;
      InOrderIs(inverse[..n]);
      assert inverse == inverse[..n] + [inverse[n]];
      assert AllOne(inverse) <==> AllOne(inverse[..n]) && inverse[n].One?;
      if AllOne(inverse) {
        assert SingleOps(inverse) == SingleOps(inverse[..n]) + [inverse[n].op];
      }
    }
  }

  /** There is nothing to undo without entries; a list among them is refused; else they are sent in the order recorded. */
  lemma AgentUndoSends(table: Table, d: Doc, inverse: seq<Inverse>, who: Stamp)
    ensures AgentUndoOutcome(table, d, inverse, who)
         == if inverse == [] then Err(InvalidRequest)
            else if !AllOne(inverse) then Err(UnknownField)
            else BatchOutcome(table, d, SingleOps(inverse), who)
  {
    hide BatchOutcome, InOrder;
    InOrderIs(inverse);
  }

  /** A batch that removes a node, groups or ungroups is never undone: its recorded entry is a list. */
  lemma ListInversesAreNeverUndone(table: Table, before: Doc, ops: seq<Op>, who: Stamp, inverse: seq<Inverse>,
                                   i: nat, d: Doc, later: Stamp)
    requires Recorded(table, before, ops, who, inverse) && i < |ops|
    requires ops[i].RemoveNode? || ops[i].Group? || ops[i].Ungroup?
    ensures AgentUndoOutcome(table, d, inverse, later) == Err(UnknownField)
  {
    hide ApplyAll, BatchOutcome, AgentUndoOutcome;
    RecordedAt(table, before, ops, who, inverse, i);
    AgentUndoSends(table, d, inverse, later);
  }

  lemma {:induction false} RecordedAt(table: Table, before: Doc, ops: seq<Op>, who: Stamp, inverse: seq<Inverse>,
                                      i: nat)
    requires Recorded(table, before, ops, who, inverse) && i < |ops|
    ensures ApplyAll(table, before, ops[..i], who).Ok?
    ensures IsInverse(ApplyAll(table, before, ops[..i], who).value, ops[i], inverse[i])
    decreases |ops|
  {
    hide ApplyAll, IsInverse;
    if i < |ops| - 1 {
      assert ops[..|ops| - 1][..i] == ops[..i];
      RecordedAt(table, before, ops[..|ops| - 1], who, inverse[..|ops| - 1], i);
    }
  }

  /** After a batch of one operation whose inverse is not a list, list order is undo order. */
  lemma OneOperationIsUndone(table: Table, d: Doc, op: Op, who: Stamp, inv: Inverse, later: Stamp)
    requires WF(table, d) && Strict(table) && inv.One?
    requires ApplyOp(table, d, op, who).Ok? && IsInverse(d, op, inv)
    ensures AgentUndoOutcome(table, ApplyOp(table, d, op, who).value, [inv], later) == Ok(d) <==> Undoable(table, d, op)
  {
    hide ApplyOp, ApplyAll, WF, IsInverse, Undoable;
    UndoOne(table, d, op, who, inv, later);
    InOrderSnoc([], inv);
    assert [] + [inv] == [inv] && [] + [inv.op] == [inv.op];
  }

  /** Two moves of one node are not undone: the node ends where the first move put it. */
  lemma TwoMovesInListOrder(table: Table, d: Doc, id: string, x: real, y: real, u: real, v: real, who: Stamp)
    requires id in d.nodes && RectOk(d.nodes[id].rect)
    requires CheckCoord(x).Pass? && CheckCoord(y).Pass? && CheckCoord(u).Pass? && CheckCoord(v).Pass?
    ensures
      var first, second := MoveNode(id, x, y, false), MoveNode(id, u, v, false);
      var mid := ApplyOp(table, d, first, who).value;
      var end := ApplyOp(table, mid, second, who).value;
      var back := One(MoveNode(id, d.nodes[id].rect.x, d.nodes[id].rect.y, false));
      var backToMid := One(MoveNode(id, x, y, false));
      && IsInverse(d, first, back) && IsInverse(mid, second, backToMid)
      && AgentUndoOutcome(table, end, [back, backToMid], who) == Ok(mid)
      && (mid == d <==> x == d.nodes[id].rect.x && y == d.nodes[id].rect.y)
  {
    var n := d.nodes[id];
    var moved := n.(rect := n.rect.(x := x, y := y));
    var mid := d.(nodes := d.nodes[id := moved]);
    var end := d.(nodes := d.nodes[id := n.(rect := n.rect.(x := u, y := v))]);
    hide ApplyOp, ApplyAll, RectOk, CheckCoord, IsInverse;
    MoveInverse(d, id, x, y);
    MoveInverse(mid, id, u, v);
    MoveTo(table, d, id, x, y, who);
    MoveTo(table, mid, id, u, v, who);
    assert mid.nodes[id := end.nodes[id]] == end.nodes;
    MoveTo(table, end, id, n.rect.x, n.rect.y, who);
    assert end.nodes[id := n] == d.nodes;
    var back, backToMid := MoveNode(id, n.rect.x, n.rect.y, false), MoveNode(id, x, y, false);
    ApplyAllOne(table, end, back, who);
    ApplyAllSnoc(table, end, [back], backToMid, who);
    InOrderSnoc([], One(back));
    InOrderSnoc([One(back)], One(backToMid));
    assert [] + [back] == [back] && [] + [One(back)] == [One(back)];
    assert [back] + [backToMid] == [back, backToMid] && [One(back)] + [One(backToMid)] == [One(back), One(backToMid)];
    assert mid.nodes[id] == moved;
    assert moved == n <==> (x == n.rect.x && y == n.rect.y);
    assert moved == n ==> mid.nodes == d.nodes;
  }

  lemma MoveInverse(d: Doc, id: string, x: real, y: real)
    requires id in d.nodes
    ensures IsInverse(d, MoveNode(id, x, y, false), One(MoveNode(id, d.nodes[id].rect.x, d.nodes[id].rect.y, false)))
  {
  }

  lemma InOrderSnoc(inverse: seq<Inverse>, last: Inverse)
    requires InOrder(inverse).Ok? && last.One?
    ensures InOrder(inverse + [last]) == Ok(InOrder(inverse).value + [last.op])
  {
    assert (inverse + [last])[..|inverse|] == inverse;
  }

  lemma MoveTo(table: Table, d: Doc, id: string, x: real, y: real, who: Stamp)
    requires id in d.nodes && RectOk(d.nodes[id].rect) && CheckCoord(x).Pass? && CheckCoord(y).Pass?
    ensures ApplyOp(table, d, MoveNode(id, x, y, false), who)
         == Ok(d.(nodes := d.nodes[id := d.nodes[id].(rect := d.nodes[id].rect.(x := x, y := y))]))
  {
  }

  // ---------------------------------------------------------------- changes of different parts

  /** No two operations of the batch change the same part of the same node. */
  predicate Independent(ops: seq<Op>)
    requires OnlyChanges(ops)
  {
    forall i, j :: 0 <= i < j < |ops| ==> !Clash(ops[i], ops[j])
  }

  /** Changes of the same kind to the same node. */
  predicate Alike(a: Op, b: Op) {
    ChangesOneNode(a) && ChangesOneNode(b) && a.id == b.id
    && (a.MoveNode? <==> b.MoveNode?) && (a.ResizeNode? <==> b.ResizeNode?) && (a.SetTitle? <==> b.SetTitle?)
    && (a.SetSpec? <==> b.SetSpec?) && (a.SetState? <==> b.SetState?)
  }

  lemma ChangeInverseIsAlike(d: Doc, op: Op, inv: Inverse)
    requires ChangesOneNode(op) && IsInverse(d, op, inv)
    ensures inv.One? && Alike(inv.op, op)
  {
  }

  lemma {:induction false} InversesAreAlike(table: Table, d: Doc, ops: seq<Op>, who: Stamp, inverse: seq<Inverse>)
    requires Recorded(table, d, ops, who, inverse) && OnlyChanges(ops)
    ensures InOrder(inverse).Ok? && |InOrder(inverse).value| == |ops|
    ensures forall i :: 0 <= i < |ops| ==> inverse[i] == One(InOrder(inverse).value[i]) && Alike(InOrder(inverse).value[i], ops[i])
    decreases |ops|
  {
    hide ApplyAll, IsInverse, Alike, ChangesOneNode;
    if ops != [] {
      var n := |ops| - 1;
      InversesAreAlike(table, d, ops[..n], who, inverse[..n]);
      ChangeInverseIsAlike(ApplyAll(table, d, ops[..n], who).value, ops[n], inverse[n]);
      assert forall i :: 0 <= i < n ==> inverse[..n][i] == inverse[i] && ops[..n][i] == ops[i];
    }
  }

  /** The part of a node that no operation of a list changes. */
  lemma {:induction false} ListKeepsPart(table: Table, d: Doc, ops: seq<Op>, who: Stamp, id: string, p: Part)
    requires OnlyChanges(ops) && id in d.nodes && ApplyAll(table, d, ops, who).Ok?
    requires forall i :: 0 <= i < |ops| ==> ops[i].id != id || PartOf(ops[i]) != p
    ensures id in ApplyAll(table, d, ops, who).value.nodes
    ensures SamePart(ApplyAll(table, d, ops, who).value.nodes[id], d.nodes[id], p)
    decreases |ops|
  {
    hide ApplyOp, Change, PartOf;
    if ops != [] {
      var n := |ops| - 1;
      ListKeepsPart(table, d, ops[..n], who, id, p);
      var mid := ApplyAll(table, d, ops[..n], who).value;
      ChangeIsApplied(table, mid, ops[n], who);
      if ops[n].id == id {
        ChangeFrame(table, mid.nodes[id], ops[n], p);
      }
    }
  }

  lemma OtherChannel(a: Op, alike: Op, last: Op)
    requires Alike(alike, a) && ChangesOneNode(last) && PartOf(last).Channel? && !Clash(a, last)
    ensures a.id != last.id || PartOf(a) != PartOf(last)
    ensures alike.id != last.id || PartOf(alike) != PartOf(last)
  {
  }

  lemma OnlyChannelsAreLost(table: Table, d: Doc, op: Op)
    requires ChangesOneNode(op) && !Undoable(table, d, op)
    ensures PartOf(op).Channel?
  {
  }

  /** When the last operation is not undone, no independent changes make up for it. */
  lemma NotUndoneStaysSo(table: Table, d: Doc, front: seq<Op>, last: Op, who: Stamp, backs: seq<Op>, back: Op, later: Stamp)
    requires OnlyChanges(front) && OnlyChanges(backs) && ChangesOneNode(last) && PartOf(last).Channel? && Alike(back, last)
    requires |backs| == |front| && forall i :: 0 <= i < |front| ==> Alike(backs[i], front[i]) && !Clash(front[i], last)
    requires ApplyAll(table, d, front, who).Ok?
    requires var mid := ApplyAll(table, d, front, who).value;
             Pair(table, mid, last, who, back, later).Ok? && Pair(table, mid, last, who, back, later) != Ok(mid)
    ensures ApplyAll(table, Pair(table, ApplyAll(table, d, front, who).value, last, who, back, later).value, backs, later) != Ok(d)
  {
    hide ApplyAll, ApplyOp, Change, SamePart, SameBase;
    var mid := ApplyAll(table, d, front, who).value;
    var got := Pair(table, mid, last, who, back, later).value;
    var id, p := last.id, PartOf(last);
    if last.id !in mid.nodes {
      MissingNodePair(table, mid, last, who, back, later);
    }
    SameNodePair(table, mid, last, who, back, later);
    var n := mid.nodes[id];
    var m := Change(table, n, last).value;
    var x := got.nodes[id];
    assert mid.nodes[id := n] == mid.nodes;
    if ApplyAll(table, got, backs, later) == Ok(d) {
      forall i | 0 <= i < |front|
        ensures front[i].id != id || PartOf(front[i]) != p
        ensures backs[i].id != id || PartOf(backs[i]) != p
      {
        OtherChannel(front[i], backs[i], last);
      }
      ListKeepsPart(table, got, backs, later, id, p);
      ListKeepsPart(table, d, front, who, id, p);
      forall q: Part
        ensures SamePart(x, n, q)
      {
        ChangeFrame(table, n, last, q);
        ChangeFrame(table, m, back, q);
        SamePartTransitive(x, m, n, q);
        SamePartTransitive(x, d.nodes[id], n, p);
      }
      ChangeFrame(table, n, last, p);
      ChangeFrame(table, m, back, p);
      SamePartTransitive(x, m, n, p);
      PartsMakeNode(x, n);
    }
  }

  lemma SamePartTransitive(a: Node, b: Node, c: Node, p: Part)
    ensures (SamePart(a, b, p) || SamePart(b, a, p)) && (SamePart(b, c, p) || SamePart(c, b, p)) ==> SamePart(a, c, p)
    ensures SameBase(a, b) && SameBase(b, c) ==> SameBase(a, c)
  {
  }

  lemma WellFormedRects(table: Table, d: Doc)
    requires WF(table, d)
    ensures RectsInRange(d)
  {
  }

  lemma LastOfAllUndoable(table: Table, d: Doc, ops: seq<Op>, who: Stamp)
    requires ops != [] && OnlyChanges(ops) && ApplyAll(table, d, ops[..|ops| - 1], who).Ok?
    ensures AllUndoable(table, d, ops, who)
       <==> AllUndoable(table, d, ops[..|ops| - 1], who)
            && Undoable(table, ApplyAll(table, d, ops[..|ops| - 1], who).value, ops[|ops| - 1])
  {
    hide ApplyAll, Undoable;
    var front := ops[..|ops| - 1];
    assert forall i :: 0 <= i <= |front| ==> front[..i] == ops[..i];
    assert forall i :: 0 <= i < |front| ==> front[i] == ops[i];
    assert ops[..|front|] == front;
  }

  lemma AlikesDoNotClash(ops: seq<Op>, backs: seq<Op>)
    requires OnlyChanges(ops) && Independent(ops) && |backs| == |ops| && ops != []
    requires forall i :: 0 <= i < |ops| ==> Alike(backs[i], ops[i])
    ensures OnlyChanges(backs) && NoClash(backs[|ops| - 1], backs[..|ops| - 1])
    ensures Independent(ops[..|ops| - 1])
  {
    forall i | 0 <= i < |ops| - 1
      ensures !Clash(backs[|ops| - 1], backs[i])
    {
      assert !Clash(ops[i], ops[|ops| - 1]);
    }
  }

  /** The last entry of a list, when it crosses all before it, may as well come first. */
  lemma LastComesFirst(table: Table, d: Doc, front: seq<Op>, last: Op, who: Stamp)
    requires RectsInRange(d) && ChangesOneNode(last) && OnlyChanges(front) && NoClash(last, front)
    ensures Agree(ApplyAll(table, d, front + [last], who), Then(table, ApplyOp(table, d, last, who), front, who))
  {
    hide ApplyOp, RectsInRange, ChangesOneNode, NoClash, OnlyChanges;
    OneCrossesList(table, d, last, who, front, who);
    ApplyAllSnoc(table, d, front, last, who);
    if ApplyAll(table, d, front, who).Ok? {
      ApplyAllOneHidden(table, ApplyAll(table, d, front, who).value, last, who);
    }
  }

  /** The step of the next theorem: undoing the last operation first, then the ones before it in list order. */
  lemma OneMoreChange(table: Table, d: Doc, front: seq<Op>, last: Op, who: Stamp, inv: Inverse, backs: seq<Op>,
                      later: Stamp)
    requires WF(table, d) && Strict(table) && StampOk(who) && OnlyChanges(front) && ChangesOneNode(last) && OnlyChanges(backs)
    requires |backs| == |front| && forall i :: 0 <= i < |front| ==> Alike(backs[i], front[i]) && !Clash(front[i], last)
    requires ApplyAll(table, d, front, who).Ok?
    requires var mid := ApplyAll(table, d, front, who).value;
             ApplyOp(table, mid, last, who).Ok? && IsInverse(mid, last, inv) && inv.One? && Alike(inv.op, last)
             && NoClash(inv.op, backs)
    ensures var mid := ApplyAll(table, d, front, who).value;
            ApplyAll(table, ApplyOp(table, mid, last, who).value, backs + [inv.op], later) == Ok(d)
            <==> Undoable(table, mid, last) && ApplyAll(table, mid, backs, later) == Ok(d)
  {
    hide WF, ApplyOp, IsInverse, Undoable, Clash, RectsInRange, PartOf, ApplyAll;
    var mid := ApplyAll(table, d, front, who).value;
    var end := ApplyOp(table, mid, last, who).value;
    BatchKeepsWellFormed(table, d, front, who);
    OpKeepsWellFormed(table, mid, last, who);
    WellFormedRects(table, end);
    UndoOne(table, mid, last, who, inv, later);
    LastComesFirst(table, end, backs, inv.op, later);
    ApplyAllOneHidden(table, end, inv.op, later);
    assert InverseOps(inv) == [inv.op];
    if !Undoable(table, mid, last) && ApplyOp(table, end, inv.op, later).Ok? {
      OnlyChannelsAreLost(table, mid, last);
      NotUndoneStaysSo(table, d, front, last, who, backs, inv.op, later);
    }
  }

  /**
   * Independent changes of geometry, title, configuration and state: list order gives the document back exactly when
   * undo order does, which is when each operation could be undone where it was made.
   */
  lemma {:induction false} IndependentChangesInListOrder(table: Table, d: Doc, ops: seq<Op>, who: Stamp,
                                                         inverse: seq<Inverse>, later: Stamp)
    requires WF(table, d) && Strict(table) && StampOk(who)
    requires OnlyChanges(ops) && Independent(ops)
    requires ApplyAll(table, d, ops, who).Ok? && Recorded(table, d, ops, who, inverse)
    ensures InOrder(inverse).Ok?
    ensures ApplyAll(table, ApplyAll(table, d, ops, who).value, InOrder(inverse).value, later) == Ok(d)
       <==> AllUndoable(table, d, ops, who)
    decreases |ops|
  {
    hide WF, ApplyOp, IsInverse, Undoable, AllUndoable, Clash, Alike, PartOf;
    InversesAreAlike(table, d, ops, who, inverse);
    if ops == [] {
      AllUndoableOfNone(table, d, who);
    } else {
      var n := |ops| - 1;
      var backs := InOrder(inverse[..n]).value;
      IndependentChangesInListOrder(table, d, ops[..n], who, inverse[..n], later);
      InversesAreAlike(table, d, ops[..n], who, inverse[..n]);
      assert InOrder(inverse).value == backs + [inverse[n].op];
      AlikesDoNotClash(ops, backs + [inverse[n].op]);
      assert (backs + [inverse[n].op])[..n] == backs;
      LastOfAllUndoable(table, d, ops, who);
      OneMoreChange(table, d, ops[..n], ops[n], who, inverse[n], backs, later);
    }
  }

  lemma AllUndoableOfNone(table: Table, d: Doc, who: Stamp)
    ensures AllUndoable(table, d, [], who)
  {
  }

  /**
   * The agent undoes a batch of independent changes exactly when each operation could be undone where it was made: the
   * order it uses makes no difference to such a batch.
   */
  lemma IndependentBatchIsUndoneExactly(table: Table, d: Doc, ops: seq<Op>, who: Stamp, inverse: seq<Inverse>, later: Stamp)
    requires WF(table, d) && Strict(table) && StampOk(who)
    requires ops != [] && OnlyChanges(ops) && Independent(ops)
    requires BatchOutcome(table, d, ops, who).Ok? && Recorded(table, d, ops, who, inverse)
    ensures AgentUndoOutcome(table, BatchOutcome(table, d, ops, who).value, inverse, later) == Ok(d)
       <==> AllUndoable(table, d, ops, who)
  {
    hide WF, ApplyAll, AllUndoable, OnlyChanges, Independent, InOrder, Alike, Recorded;
    InversesAreAlike(table, d, ops, who, inverse);
    IndependentChangesInListOrder(table, d, ops, who, inverse, later);
    SameLength(table, d, ops, who, inverse);
  }

  lemma SameLength(table: Table, d: Doc, ops: seq<Op>, who: Stamp, inverse: seq<Inverse>)
    requires Recorded(table, d, ops, who, inverse)
    ensures |inverse| == |ops|
  {
  }

  // ---------------------------------------------------------------- moves and resizes

  /** What a move writes, and what a resize writes. */
  datatype Aspect = Position | Size

  function AspectOf(op: Op): Aspect {
    if op.MoveNode? then Position else Size
  }

  function Place(r: Rect, a: Aspect): (real, real) {
    match a
    case Position => (r.x, r.y)
    case Size => (r.w, r.h)
  }

  predicate OnlyGeometry(ops: seq<Op>) {
    forall i :: 0 <= i < |ops| ==> ops[i].MoveNode? || ops[i].ResizeNode?
  }

  /** The index of the last operation that moves, or resizes, a node; -1 if there is none. */
  function LastWriter(ops: seq<Op>, id: string, a: Aspect): (i: int)
    requires OnlyGeometry(ops)
    ensures -1 <= i < |ops|
    ensures i >= 0 ==> ops[i].id == id && AspectOf(ops[i]) == a
  {
    if ops == [] then -1
    else if ops[|ops| - 1].id == id && AspectOf(ops[|ops| - 1]) == a then |ops| - 1
    else LastWriter(ops[..|ops| - 1], id, a)
  }

  /** The same document but for the rectangles, all of them in range. */
  ghost predicate Rearranged(d: Doc, e: Doc) {
    && e.viewport == d.viewport && e.settings == d.settings && e.edges == d.edges && e.nodes.Keys == d.nodes.Keys
    && (forall k :: k in d.nodes ==> RectOk(e.nodes[k].rect) && e.nodes[k] == d.nodes[k].(rect := e.nodes[k].rect))
  }

  lemma GeometryChange(table: Table, n: Node, op: Op)
    requires (op.MoveNode? || op.ResizeNode?) && RectOk(n.rect) && Change(table, n, op).Ok?
    ensures var m := Change(table, n, op).value;
            m == n.(rect := m.rect) && RectOk(m.rect)
            && forall a :: a != AspectOf(op) ==> Place(m.rect, a) == Place(n.rect, a)
  {
  }

  lemma OneRearranges(table: Table, d: Doc, e: Doc, op: Op, who: Stamp)
    requires Rearranged(d, e) && (op.MoveNode? || op.ResizeNode?) && ApplyOp(table, e, op, who).Ok?
    ensures var f := ApplyOp(table, e, op, who).value;
            && Rearranged(d, f) && op.id in d.nodes
            && forall k, a :: k in d.nodes && (k != op.id || a != AspectOf(op)) ==> Place(f.nodes[k].rect, a) == Place(e.nodes[k].rect, a)
  {
    hide ApplyOp, Change, Place, AspectOf, RectOk;
    ChangeIsApplied(table, e, op, who);
    assert op.id in e.nodes;
    GeometryChange(table, e.nodes[op.id], op);
  }

  lemma {:induction false} ListRearranges(table: Table, d: Doc, ops: seq<Op>, who: Stamp)
    requires RectsInRange(d) && OnlyGeometry(ops) && ApplyAll(table, d, ops, who).Ok?
    ensures Rearranged(d, ApplyAll(table, d, ops, who).value)
    ensures forall i :: 0 <= i < |ops| ==> ops[i].id in d.nodes
    ensures forall k, a :: k in d.nodes && LastWriter(ops, k, a) == -1 ==>
              Place(ApplyAll(table, d, ops, who).value.nodes[k].rect, a) == Place(d.nodes[k].rect, a)
    decreases |ops|
  {
    hide ApplyOp, Place, AspectOf;
    if ops == [] {
      assert ApplyAll(table, d, ops, who) == Ok(d);
    } else {
      var n := |ops| - 1;
      ListRearranges(table, d, ops[..n], who);
      OneRearranges(table, d, ApplyAll(table, d, ops[..n], who).value, ops[n], who);
    }
  }

  /** The recorded inverse of a move or a resize puts the old place back, on any rearrangement of the document. */
  lemma BackPutsPlace(table: Table, d: Doc, met: Doc, op: Op, inv: Inverse, e: Doc, later: Stamp)
    requires Rearranged(d, met) && Rearranged(d, e) && (op.MoveNode? || op.ResizeNode?) && op.id in d.nodes
    requires IsInverse(met, op, inv)
    ensures inv.One? && ApplyOp(table, e, inv.op, later).Ok?
    ensures var f := ApplyOp(table, e, inv.op, later).value;
            && Rearranged(d, f) && Place(f.nodes[op.id].rect, AspectOf(op)) == Place(met.nodes[op.id].rect, AspectOf(op))
            && forall k, a :: k in d.nodes && (k != op.id || a != AspectOf(op)) ==> Place(f.nodes[k].rect, a) == Place(e.nodes[k].rect, a)
  {
    hide Rearranged;
    PlacesBack(table, d, met, op, inv, e, later);
    OneRearranges(table, d, e, inv.op, later);
  }

  lemma GeometryBack(table: Table, n: Node, m: Node, id: string, op: Op)
    requires op == MoveNode(id, n.rect.x, n.rect.y, false) || op == ResizeNode(id, n.rect.w, n.rect.h, false)
    requires RectOk(n.rect) && RectOk(m.rect)
    ensures Change(table, m, op).Ok? && Place(Change(table, m, op).value.rect, AspectOf(op)) == Place(n.rect, AspectOf(op))
  {
  }

  lemma PlacesBack(table: Table, d: Doc, met: Doc, op: Op, inv: Inverse, e: Doc, later: Stamp)
    requires Rearranged(d, met) && Rearranged(d, e) && (op.MoveNode? || op.ResizeNode?) && op.id in d.nodes
    requires IsInverse(met, op, inv)
    ensures inv.One? && Alike(inv.op, op) && AspectOf(inv.op) == AspectOf(op) && ApplyOp(table, e, inv.op, later).Ok?
    ensures op.id in ApplyOp(table, e, inv.op, later).value.nodes && op.id in met.nodes
    ensures Place(ApplyOp(table, e, inv.op, later).value.nodes[op.id].rect, AspectOf(op)) == Place(met.nodes[op.id].rect, AspectOf(op))
  {
    hide ApplyOp, Change, Place, RectOk;
    ChangeIsApplied(table, e, inv.op, later);
    GeometryBack(table, met.nodes[op.id], e.nodes[op.id], op.id, inv.op);
  }

  /** Where a node was before the last operation of the batch that moved, or resized, it. */
  ghost function PlaceBeforeLast(table: Table, d: Doc, ops: seq<Op>, who: Stamp, id: string, a: Aspect): (real, real)
    requires OnlyGeometry(ops) && LastWriter(ops, id, a) >= 0
  {
    var met := ApplyAll(table, d, ops[..LastWriter(ops, id, a)], who);
    if met.Ok? && id in met.value.nodes then Place(met.value.nodes[id].rect, a) else (0.0, 0.0)
  }

  /** One more operation changes the last writer of one aspect of one node. */
  lemma PlaceBeforeLastStep(table: Table, d: Doc, ops: seq<Op>, who: Stamp, k: string, a: Aspect)
    requires OnlyGeometry(ops) && ops != []
    ensures var n := |ops| - 1;
      if k == ops[n].id && a == AspectOf(ops[n]) then
        LastWriter(ops, k, a) == n
        && var met := ApplyAll(table, d, ops[..n], who);
           met.Ok? && k in met.value.nodes ==> PlaceBeforeLast(table, d, ops, who, k, a) == Place(met.value.nodes[k].rect, a)
      else
        LastWriter(ops, k, a) == LastWriter(ops[..n], k, a)
        && (LastWriter(ops, k, a) >= 0 ==> PlaceBeforeLast(table, d, ops, who, k, a) == PlaceBeforeLast(table, d, ops[..n], who, k, a))
  {
    hide ApplyAll, AspectOf, Place;
    var n, i := |ops| - 1, LastWriter(ops, k, a);
    assert 0 <= i < n ==> ops[..n][..i] == ops[..i];
  }

  lemma SameKeys(d: Doc, e: Doc)
    requires Rearranged(d, e)
    ensures e.nodes.Keys == d.nodes.Keys
  {
  }

  lemma ApplyAllNone(table: Table, d: Doc, who: Stamp)
    ensures ApplyAll(table, d, [], who) == Ok(d)
  {
  }

  /** In list order every entry is accepted, and each place ends as it was before the last operation that wrote it. */
  lemma {:induction false} BacksInListOrder(table: Table, d: Doc, ops: seq<Op>, who: Stamp, inverse: seq<Inverse>,
                                            e: Doc, later: Stamp)
    requires RectsInRange(d) && OnlyGeometry(ops) && Rearranged(d, e)
    requires ApplyAll(table, d, ops, who).Ok? && Recorded(table, d, ops, who, inverse)
    ensures InOrder(inverse).Ok? && ApplyAll(table, e, InOrder(inverse).value, later).Ok?
    ensures var f := ApplyAll(table, e, InOrder(inverse).value, later).value;
            Rearranged(d, f) && forall k, a :: k in d.nodes ==>
              Place(f.nodes[k].rect, a)
              == if LastWriter(ops, k, a) >= 0 then PlaceBeforeLast(table, d, ops, who, k, a) else Place(e.nodes[k].rect, a)
    decreases |ops|
  {
    hide ApplyOp, ApplyAll, IsInverse, Place, AspectOf, RectsInRange, Rearranged, PlaceBeforeLast;
    SameKeys(d, e);
    if ops == [] {
      ApplyAllNone(table, e, later);
    } else {
      var n := |ops| - 1;
      var front, met := ops[..n], ApplyAll(table, d, ops[..n], who).value;
      BacksInListOrder(table, d, front, who, inverse[..n], e, later);
      ListRearranges(table, d, front, who);
      ListRearranges(table, d, ops, who);
      var mid := ApplyAll(table, e, InOrder(inverse[..n]).value, later).value;
      BackPutsPlace(table, d, met, ops[n], inverse[n], mid, later);
      ApplyAllSnoc(table, e, InOrder(inverse[..n]).value, inverse[n].op, later);
      assert InOrder(inverse).value == InOrder(inverse[..n]).value + [inverse[n].op];
      var f := ApplyAll(table, e, InOrder(inverse).value, later).value;
      SameKeys(d, met);
      SameKeys(d, mid);
      SameKeys(d, f);
      forall k, a | k in d.nodes
        ensures Place(f.nodes[k].rect, a)
             == if LastWriter(ops, k, a) >= 0 then PlaceBeforeLast(table, d, ops, who, k, a) else Place(e.nodes[k].rect, a)
      {
        PlaceBeforeLastStep(table, d, ops, who, k, a);
      }
    }
  }

  /**
   * The agent undoes a batch of moves and resizes exactly when, for every node, the position before the last move of it
   * is its first one, and the size before its last resize is its first one.
   */
  lemma GeometryBatchIsUndoneExactly(table: Table, d: Doc, ops: seq<Op>, who: Stamp, inverse: seq<Inverse>, later: Stamp)
    requires RectsInRange(d) && ops != [] && OnlyGeometry(ops)
    requires BatchOutcome(table, d, ops, who).Ok? && Recorded(table, d, ops, who, inverse)
    ensures AgentUndoOutcome(table, BatchOutcome(table, d, ops, who).value, inverse, later) == Ok(d)
       <==> forall k, a :: k in d.nodes && LastWriter(ops, k, a) >= 0 ==>
              PlaceBeforeLast(table, d, ops, who, k, a) == Place(d.nodes[k].rect, a)
  {
    hide ApplyAll, PlaceBeforeLast, RectsInRange, Place;
    var end := BatchOutcome(table, d, ops, who).value;
    ListRearranges(table, d, ops, who);
    BacksInListOrder(table, d, ops, who, inverse, end, later);
    InversesAreAlike(table, d, ops, who, inverse);
    SameLength(table, d, ops, who, inverse);
    SamePlacesSameDoc(d, ApplyAll(table, end, InOrder(inverse).value, later).value);
  }

  lemma SamePlacesSameDoc(d: Doc, e: Doc)
    requires Rearranged(d, e)
    ensures e == d <==> forall k, a :: k in d.nodes ==> Place(e.nodes[k].rect, a) == Place(d.nodes[k].rect, a)
  {
    if forall k, a :: k in d.nodes ==> Place(e.nodes[k].rect, a) == Place(d.nodes[k].rect, a) {
      forall k | k in d.nodes
        ensures e.nodes[k] == d.nodes[k]
      {
        assert Place(e.nodes[k].rect, Position) == Place(d.nodes[k].rect, Position);
        assert Place(e.nodes[k].rect, Size) == Place(d.nodes[k].rect, Size);
      }
      assert e.nodes == d.nodes;
    }
  }

  // ---------------------------------------------------------------- nodes added and linked

  predicate AddsEdge(op: Op, id: string) {
    op.AddEdge? && op.edge.id == id
  }

  /** Only an operation that adds an edge under an ID changes what is stored there, other than by dropping it. */
  lemma EdgeStays(table: Table, d: Doc, op: Op, who: Stamp, id: string)
    requires !AddsEdge(op, id) && ApplyOp(table, d, op, who).Ok?
    ensures var after := ApplyOp(table, d, op, who).value.edges;
            id in after ==> id in d.edges && after[id] == d.edges[id]
  {
    hide ApplyOp;
    if op.AddEdge? {
      OtherEdgeStays(table, d, op.edge, who, id);
    } else {
      EdgesOnlyGo(table, d, op, who);
    }
  }

  lemma OtherEdgeStays(table: Table, d: Doc, e: Edge, who: Stamp, id: string)
    requires e.id != id && ApplyOp(table, d, AddEdge(e), who).Ok?
    ensures var after := ApplyOp(table, d, AddEdge(e), who).value.edges;
            id in after ==> id in d.edges && after[id] == d.edges[id]
  {
    hide CheckEdge, Stamped;
  }

  lemma {:induction false} EdgeStaysThrough(table: Table, d: Doc, ops: seq<Op>, who: Stamp, id: string)
    requires ApplyAll(table, d, ops, who).Ok? && forall k :: 0 <= k < |ops| ==> !AddsEdge(ops[k], id)
    ensures var after := ApplyAll(table, d, ops, who).value.edges;
            id in after ==> id in d.edges && after[id] == d.edges[id]
    decreases |ops|
  {
    hide ApplyOp;
    if ops != [] {
      var n := |ops| - 1;
      EdgeStaysThrough(table, d, ops[..n], who, id);
      EdgeStays(table, ApplyAll(table, d, ops[..n], who).value, ops[n], who, id);
    }
  }

  /** Taking a node out takes its edges with it. */
  lemma EdgeGoesWithNode(table: Table, d: Doc, node: string, who: Stamp, id: string)
    requires ApplyOp(table, d, RemoveNode(node, Some(true)), who).Ok?
    requires id in d.edges ==> Incident(d.edges[id], node)
    ensures id !in ApplyOp(table, d, RemoveNode(node, Some(true)), who).value.edges
  {
  }

  /** A list that takes a node out, and later an edge of it that nothing puts back in between, is refused. */
  lemma NodeThenEdgeRefused(table: Table, d: Doc, backs: seq<Op>, i: nat, j: nat, node: string, id: string, who: Stamp)
    requires i < j < |backs| && backs[i] == RemoveNode(node, Some(true)) && backs[j] == RemoveEdge(id)
    requires forall k :: 0 <= k < |backs| ==> !AddsEdge(backs[k], id)
    requires id in d.edges ==> Incident(d.edges[id], node)
    ensures ApplyAll(table, d, backs, who).Err?
  {
    hide ApplyOp, ApplyAll, Incident;
    if ApplyAll(table, d, backs, who).Ok? {
      StepIsAccepted(table, d, backs, who, i);
      StepIsAccepted(table, d, backs, who, j);
      EdgeStaysThrough(table, d, backs[..i], who, id);
      EdgeGoesWithNode(table, ApplyAll(table, d, backs[..i], who).value, node, who, id);
      assert backs[..j] == backs[..i + 1] + backs[i + 1..j];
      ApplyAllConcat(table, d, backs[..i + 1], backs[i + 1..j], who);
      EdgeStaysThrough(table, ApplyAll(table, d, backs[..i + 1], who).value, backs[i + 1..j], who, id);
      MissingEdgeRefused(table, ApplyAll(table, d, backs[..j], who).value, id, who);
      assert false;
    }
  }

  lemma StepIsAccepted(table: Table, d: Doc, ops: seq<Op>, who: Stamp, n: nat)
    requires n < |ops| && ApplyAll(table, d, ops, who).Ok?
    ensures ApplyAll(table, d, ops[..n], who).Ok?
    ensures ApplyAll(table, d, ops[..n + 1], who) == ApplyOp(table, ApplyAll(table, d, ops[..n], who).value, ops[n], who)
    ensures ApplyAll(table, d, ops[..n + 1], who).Ok?
  {
    hide ApplyOp, ApplyAll;
    PrefixIsAccepted(table, d, ops, who, n);
    PrefixIsAccepted(table, d, ops, who, n + 1);
    assert ops[..n + 1] == ops[..n] + [ops[n]];
    ApplyAllSnoc(table, d, ops[..n], ops[n], who);
  }

  lemma MissingEdgeRefused(table: Table, d: Doc, id: string, who: Stamp)
    requires id !in d.edges
    ensures ApplyOp(table, d, RemoveEdge(id), who).Err?
  {
  }

  lemma PrefixIsAccepted(table: Table, d: Doc, ops: seq<Op>, who: Stamp, n: nat)
    requires n <= |ops| && ApplyAll(table, d, ops, who).Ok?
    ensures ApplyAll(table, d, ops[..n], who).Ok?
  {
    hide ApplyAll;
    if ApplyAll(table, d, ops[..n], who).Err? {
      ApplyAllFails(table, d, ops, who, n);
    }
  }

  /** Entries that are all single operations form the batch that is sent. */
  lemma AllSingle(inverse: seq<Inverse>)
    requires forall k :: 0 <= k < |inverse| ==> inverse[k].One?
    ensures InOrder(inverse).Ok? && |InOrder(inverse).value| == |inverse|
    ensures forall k :: 0 <= k < |inverse| ==> inverse[k] == One(InOrder(inverse).value[k])
  {
    hide InOrder;
    InOrderIs(inverse);
  }

  predicate HandlesEdge(op: Op, id: string) {
    AddsEdge(op, id) || (op.RemoveEdge? && op.id == id)
  }

  /** An inverse that is a single operation adds an edge only back under the ID it was removed from. */
  lemma InverseAddsBack(d: Doc, op: Op, inv: Inverse, id: string)
    requires IsInverse(d, op, inv) && inv.One? && !HandlesEdge(op, id)
    requires forall k :: k in d.edges ==> d.edges[k].id == k
    ensures !AddsEdge(inv.op, id)
  {
  }

  lemma ListKinds(d: Doc, op: Op, inv: Inverse)
    requires IsInverse(d, op, inv) && inv.One?
    ensures !DeletesChildren(op)
    ensures op.AddNode? ==> inv.op == RemoveNode(op.node.id, Some(true))
    ensures op.AddEdge? ==> inv.op == RemoveEdge(op.edge.id)
  {
  }

  lemma EdgeKeys(table: Table, d: Doc)
    requires WF(table, d)
    ensures forall k :: k in d.edges ==> d.edges[k].id == k
  {
  }

  lemma AddedEdgeIsThere(table: Table, d: Doc, e: Edge, who: Stamp)
    requires ApplyOp(table, d, AddEdge(e), who).Ok?
    ensures var after := ApplyOp(table, d, AddEdge(e), who).value.edges;
            e.id in after && after[e.id].from == e.from && after[e.id].to == e.to
  {
  }

  /** At the end of the batch the edge, if it is still there, belongs to the node. */
  lemma LinkAtEnd(table: Table, d: Doc, ops: seq<Op>, who: Stamp, j: nat, node: string)
    requires ApplyAll(table, d, ops, who).Ok? && j < |ops| && ops[j].AddEdge? && Incident(ops[j].edge, node)
    requires forall k :: j < k < |ops| ==> !AddsEdge(ops[k], ops[j].edge.id)
    ensures var after := ApplyAll(table, d, ops, who).value.edges;
            ops[j].edge.id in after ==> Incident(after[ops[j].edge.id], node)
  {
    hide ApplyOp;
    PrefixIsAccepted(table, d, ops, who, j);
    PrefixIsAccepted(table, d, ops, who, j + 1);
    assert ops[..j + 1][..j] == ops[..j];
    AddedEdgeIsThere(table, ApplyAll(table, d, ops[..j], who).value, ops[j].edge, who);
    assert ops == ops[..j + 1] + ops[j + 1..];
    ApplyAllConcat(table, d, ops[..j + 1], ops[j + 1..], who);
    EdgeStaysThrough(table, ApplyAll(table, d, ops[..j + 1], who).value, ops[j + 1..], who, ops[j].edge.id);
  }

  lemma SingleEntriesKeepWellFormed(table: Table, d: Doc, ops: seq<Op>, who: Stamp, inverse: seq<Inverse>, n: nat)
    requires WF(table, d) && StampOk(who) && ApplyAll(table, d, ops, who).Ok? && Recorded(table, d, ops, who, inverse)
    requires (forall k :: 0 <= k < |ops| ==> inverse[k].One?) && n <= |ops|
    ensures ApplyAll(table, d, ops[..n], who).Ok? && WF(table, ApplyAll(table, d, ops[..n], who).value)
  {
    hide WF, ApplyAll, IsInverse, Recorded;
    SameLength(table, d, ops, who, inverse);
    PrefixIsAccepted(table, d, ops, who, n);
    forall k | 0 <= k < n
      ensures !DeletesChildren(ops[..n][k])
    {
      RecordedAt(table, d, ops, who, inverse, k);
      ListKinds(ApplyAll(table, d, ops[..k], who).value, ops[k], inverse[k]);
    }
    BatchKeepsWellFormed(table, d, ops[..n], who);
  }

  /**
   * A batch that adds a node and links it is never undone by the agent: in list order the node goes first and takes the
   * edge along, and then the edge is not found.
   */
  lemma LinkedNodeIsNeverUndone(table: Table, d: Doc, ops: seq<Op>, who: Stamp, inverse: seq<Inverse>, i: nat, j: nat,
                                later: Stamp)
    requires WF(table, d) && StampOk(who)
    requires BatchOutcome(table, d, ops, who).Ok? && Recorded(table, d, ops, who, inverse)
    requires i < j < |ops| && ops[i].AddNode? && ops[j].AddEdge? && Incident(ops[j].edge, ops[i].node.id)
    requires forall k :: 0 <= k < |ops| && k != j ==> !HandlesEdge(ops[k], ops[j].edge.id)
    ensures AgentUndoOutcome(table, BatchOutcome(table, d, ops, who).value, inverse, later).Err?
  {
    hide WF, ApplyAll, IsInverse, Recorded, Incident, InOrder;
    SameLength(table, d, ops, who, inverse);
    if k :| 0 <= k < |ops| && inverse[k].Many? {
      InOrderIs(inverse);
    } else {
      AllSingle(inverse);
      var backs, id := InOrder(inverse).value, ops[j].edge.id;
      forall k | 0 <= k < |ops|
        ensures !AddsEdge(backs[k], id)
        ensures k == i ==> backs[k] == RemoveNode(ops[i].node.id, Some(true))
        ensures k == j ==> backs[k] == RemoveEdge(id)
      {
        RecordedAt(table, d, ops, who, inverse, k);
        SingleEntriesKeepWellFormed(table, d, ops, who, inverse, k);
        var met := ApplyAll(table, d, ops[..k], who).value;
        EdgeKeys(table, met);
        ListKinds(met, ops[k], inverse[k]);
        if k != j {
          InverseAddsBack(met, ops[k], inverse[k], id);
        }
      }
      LinkAtEnd(table, d, ops, who, j, ops[i].node.id);
      NodeThenEdgeRefused(table, BatchOutcome(table, d, ops, who).value, backs, i, j, ops[i].node.id, id, later);
    }
  }
}
