/** Which stale batches are merged, pair by pair of operations, and what that means for removed and for disjoint nodes. */
module MergeRules {
  import opened Outcomes
  import opened Documents
  import opened Operations
  import opened Rebase

  /** The kinds of operation a stale batch may hold. */
  predicate Mergeable(op: Op) {
    !op.Group? && !op.Ungroup? && !op.SetViewport? && !op.SetSettings?
  }

  /** The kinds of operation a stale batch may be merged over. */
  predicate Passable(op: Op) {
    !op.Ungroup? && !op.SetViewport? && !op.SetSettings?
  }

  /** Whether an operation relies on a node being there, or not being there, as it was. */
  predicate ReliesOn(op: Op, id: string) {
    match op
    case AddNode(n) => n.id == id
    case AddEdge(e) => e.to.nodeId == id
    case RemoveEdge(_) => id == ""
    case Group(_, _, _, _) => false
    case Ungroup(_, _) => false
    case SetViewport(_) => false
    case SetSettings(_) => false
    case _ => op.id == id
  }

  /** Why a mergeable operation is refused over an in-flight one: what each kind of in-flight change rules out. */
  predicate Collides(a: Op, b: Op) {
    match b
    case AddNode(n) => ReliesOn(a, n.id)
    case RemoveNode(id, _) => ReliesOn(a, id)
    case MoveNode(id, _, _, _) => a.RemoveNode? && a.id == id
    case ResizeNode(id, _, _, _) => a.RemoveNode? && a.id == id
    case SetSpec(id, _, _, _, _) => (a.RemoveNode? || a.MoveNode? || a.ResizeNode? || a.SetSpec?) && a.id == id
    case SetTitle(id, _) => (a.MoveNode? || a.SetTitle?) && a.id == id
    case SetState(id, _, _, _) => a.SetState? && a.id == id
    case SetParent(id, _) => a.SetParent? && a.id == id
    case Group(ids, _, _, _) => a.SetParent? && a.id in ids
    case _ => false
  }

  lemma BlockedBy(a: Op, b: Op)
    ensures Mergeable(a) ==> (Blocked(a, Touches(b)) <==> Collides(a, b) && Passable(b))
    ensures !Mergeable(a) ==> Blocked(a, Touches(b))
    ensures TGlobal in Touches(b) <==> !Passable(b)
  {
  }

  /** An operation is blocked by what a whole list touched exactly when some member of the list blocks it. */
  lemma BlockedBySome(a: Op, ops: seq<Op>)
    requires Mergeable(a)
    ensures Blocked(a, TouchedBy(ops)) <==> exists j :: 0 <= j < |ops| && Blocked(a, Touches(ops[j]))
  {
    hide Touches;
    if Blocked(a, TouchedBy(ops)) {
      var t :| t in TouchedBy(ops) && Blocked(a, {t});
      var op :| op in ops && t in Touches(op);
      var j :| 0 <= j < |ops| && ops[j] == op;
      BlockedByMore(a, t, Touches(ops[j]));
    }
    if j :| 0 <= j < |ops| && Blocked(a, Touches(ops[j])) {
      forall t | t in Touches(ops[j])
        ensures t in TouchedBy(ops)
      {
        TouchedMember(ops, ops[j], t);
      }
      var t :| t in Touches(ops[j]) && Blocked(a, {t});
      BlockedByMore(a, t, TouchedBy(ops));
    }
  }

  lemma BlockedByMore(a: Op, t: Touch, touched: set<Touch>)
    requires Blocked(a, {t}) && t in touched
    ensures Blocked(a, touched)
  {
  }

  /**
   * A stale batch is merged exactly when it holds only mergeable operations, the in-flight ones can be passed, and no
   * pair of them collides.
   */
  lemma MergedExactly(incoming: seq<Op>, inflight: seq<Op>)
    ensures MayRebase(incoming, inflight)
       <==> && (forall i :: 0 <= i < |incoming| ==> Mergeable(incoming[i]))
            && (forall j :: 0 <= j < |inflight| ==> Passable(inflight[j]))
            && (forall i, j :: 0 <= i < |incoming| && 0 <= j < |inflight| ==> !Collides(incoming[i], inflight[j]))
  {
    hide Blocked, Touches, Mergeable, Passable, Collides;
    GlobalIsImpassable(inflight);
    forall i | 0 <= i < |incoming|
      ensures Blocked(incoming[i], TouchedBy(inflight))
         <==> !Mergeable(incoming[i]) || exists j :: 0 <= j < |inflight| && Collides(incoming[i], inflight[j]) && Passable(inflight[j])
    {
      if Mergeable(incoming[i]) {
        BlockedBySome(incoming[i], inflight);
        forall j | 0 <= j < |inflight|
          ensures Blocked(incoming[i], Touches(inflight[j])) <==> Collides(incoming[i], inflight[j]) && Passable(inflight[j])
        {
          BlockedBy(incoming[i], inflight[j]);
        }
      } else {
        NeverMerged(incoming[i], TouchedBy(inflight));
      }
    }
  }

  lemma NeverMerged(a: Op, touched: set<Touch>)
    requires !Mergeable(a)
    ensures Blocked(a, touched)
  {
  }

  lemma GlobalIsImpassable(ops: seq<Op>)
    ensures TGlobal in TouchedBy(ops) <==> exists j :: 0 <= j < |ops| && !Passable(ops[j])
  {
    hide Touches, Passable;
    if TGlobal in TouchedBy(ops) {
      var op :| op in ops && TGlobal in Touches(op);
      var j :| 0 <= j < |ops| && ops[j] == op;
      BlockedBy(ops[j], ops[j]);
    }
    if j :| 0 <= j < |ops| && !Passable(ops[j]) {
      BlockedBy(ops[j], ops[j]);
      TouchedMember(ops, ops[j], TGlobal);
    }
  }

  // ---------------------------------------------------------------- removed nodes

  /** Adding, removing, moving, resizing or configuring a node. */
  predicate ChangesSubstance(op: Op, id: string) {
    || (op.AddNode? && op.node.id == id)
    || ((op.RemoveNode? || op.MoveNode? || op.ResizeNode? || op.SetSpec?) && op.id == id)
  }

  /** A stale removal is merged over nothing that added, removed, moved, resized or configured the node. */
  lemma RemovalMeetsNoChange(incoming: seq<Op>, inflight: seq<Op>, i: nat, j: nat)
    requires MayRebase(incoming, inflight) && i < |incoming| && j < |inflight| && incoming[i].RemoveNode?
    ensures !ChangesSubstance(inflight[j], incoming[i].id)
  {
    hide MayRebase;
    MergedExactly(incoming, inflight);
    assert !Collides(incoming[i], inflight[j]);
  }

  /** It is merged over a title, a state, a parent link or an edge of the node, which are then lost with it. */
  lemma RemovalIsMergedOver(id: string, b: Op)
    requires match b
      case SetTitle(x, _) => x == id
      case SetState(x, _, _, _) => x == id
      case SetParent(x, _) => x == id
      case AddEdge(e) => e.from.nodeId == id || e.to.nodeId == id
      case _ => false
    ensures MayRebase([RemoveNode(id, None)], [b])
  {
    hide MayRebase;
    MergedExactly([RemoveNode(id, None)], [b]);
  }

  // ---------------------------------------------------------------- disjoint batches

  /** Every node and edge an operation names. */
  function Names(op: Op): set<string> {
    match op
    case AddNode(n) => {n.id, n.parentId}
    case AddEdge(e) => {e.id, e.from.nodeId, e.to.nodeId}
    case RemoveEdge(id) => {id}
    case Group(ids, group, _, _) => (set id | id in ids) + {group}
    case Ungroup(group, _) => {group}
    case SetViewport(_) => {}
    case SetSettings(_) => {}
    case SetParent(id, parent) => {id, parent}
    case _ => {op.id}
  }

  /** The node an operation adds or takes away has a name. */
  predicate NamesItsNode(op: Op) {
    (op.AddNode? ==> op.node.id != "") && (op.RemoveNode? ==> op.id != "")
  }

  /** Batches that name no node and no edge in common are merged, unless a kind forbids it. */
  lemma DisjointIsMerged(incoming: seq<Op>, inflight: seq<Op>)
    requires forall i :: 0 <= i < |incoming| ==> Mergeable(incoming[i])
    requires forall j :: 0 <= j < |inflight| ==> Passable(inflight[j]) && NamesItsNode(inflight[j])
    requires forall i, j :: 0 <= i < |incoming| && 0 <= j < |inflight| ==> Names(incoming[i]) !! Names(inflight[j])
    ensures MayRebase(incoming, inflight)
  {
    hide MayRebase;
    MergedExactly(incoming, inflight);
    forall i, j | 0 <= i < |incoming| && 0 <= j < |inflight|
      ensures !Collides(incoming[i], inflight[j])
    {
      DisjointDoNotCollide(incoming[i], inflight[j]);
    }
  }

  lemma DisjointDoNotCollide(a: Op, b: Op)
    requires Names(a) !! Names(b) && Mergeable(a) && Passable(b) && NamesItsNode(b)
    ensures !Collides(a, b)
  {
  }
}
