/** Applying a batch: on a clone, all or nothing, with the inverse of each operation recorded in order. */
module Batches {
  import opened Outcomes
  import opened Documents
  import opened Schemas
  import opened Operations
  import opened Canvas

  datatype BatchResult = BatchResult(version: int, applied: nat, inverse: seq<Inverse>)

  /** One recorded inverse per operation, each taken from the document the operation met. */
  ghost predicate Recorded(table: Table, d: Doc, ops: seq<Op>, who: Stamp, inverse: seq<Inverse>) {
    |inverse| == |ops| &&
    (ops != [] ==>
       var n := |ops| - 1;
       Recorded(table, d, ops[..n], who, inverse[..n]) &&
       ApplyAll(table, d, ops[..n], who).Ok? &&
       IsInverse(ApplyAll(table, d, ops[..n], who).value, ops[n], inverse[n]))
  }

  method Dispatch(table: Table, doc: CanvasDocument, op: Op, who: Stamp) returns (r: Outcome<Inverse>)
    requires doc.Valid()
    modifies doc`nodes, doc`edges, doc`viewport, doc`settings
    ensures Applied(old(doc.Contents()), op, ApplyOp(table, old(doc.Contents()), op, who), r, doc.Contents())
    ensures doc.Valid()
  {
    hide Applied, ApplyAddNode, ApplyRemoveNode, ApplyMoveNode, ApplyResizeNode, ApplySetTitle, ApplySetSpec, ApplySetState,
      ApplyAddEdge, ApplyRemoveEdge, ApplyGroup, ApplyUngroup, ApplySetViewport, ApplySetSettings, ApplySetParent;
    match op
    case AddNode(n) => r := doc.AddNode(table, n);
    case RemoveNode(id, cascade) => r := doc.RemoveNode(id, cascade);
    case MoveNode(id, x, y, delta) => r := doc.MoveNode(id, x, y, delta);
    case ResizeNode(id, w, h, keepAspect) => r := doc.ResizeNode(id, w, h, keepAspect);
    case SetTitle(id, title) => r := doc.SetTitle(id, title);
    case SetSpec(id, patch, unset, meta, metaUnset) => r := doc.SetSpec(table, id, patch, unset, meta, metaUnset);
    case SetState(id, state, result, error) => r := doc.SetState(id, state, result, error);
    case AddEdge(e) => r := doc.AddEdge(e, who);
    case RemoveEdge(id) => r := doc.RemoveEdge(id);
    case Group(ids, group, title, rect) => r := doc.Group(ids, group, title, rect);
    case Ungroup(group, keep) => r := doc.Ungroup(group, keep);
    case SetViewport(v) => r := doc.SetViewport(v);
    case SetSettings(patch) => r := doc.SetSettings(patch);
    case SetParent(id, parent) => r := doc.SetParent(id, parent);
  }

  /** What a batch answers: nothing for an empty one, a refusal for an oversized one, else the fold. */
  ghost function BatchOutcome(table: Table, d: Doc, ops: seq<Op>, who: Stamp): Outcome<Doc> {
    if |ops| > MaxOpBatch then Err(PayloadTooLarge) else ApplyAll(table, d, ops, who)
  }

  method Apply(table: Table, doc: CanvasDocument, ops: seq<Op>, who: Stamp)
    returns (r: Outcome<BatchResult>, next: CanvasDocument)
    requires doc.Valid()
    ensures |ops| == 0 ==> next == doc && r == Ok(BatchResult(doc.version, 0, []))
    ensures |ops| > 0 && r.Ok? ==>
      fresh(next) && next.id == doc.id && next.projectId == doc.projectId
      && next.version == doc.version + 1 && next.updatedAt == who.now
      && r.value.version == next.version && r.value.applied == |ops|
      && Recorded(table, doc.Contents(), ops, who, r.value.inverse)
    ensures r.Ok? ==> BatchOutcome(table, doc.Contents(), ops, who) == Ok(next.Contents()) && next.Valid()
    ensures r.Err? ==> BatchOutcome(table, doc.Contents(), ops, who) == Err(r.code)
  {
    hide ApplyOp, IsInverse;
    if |ops| == 0 {
      return Ok(BatchResult(doc.version, 0, [])), doc;
    }
    if |ops| > MaxOpBatch {
      return Err(PayloadTooLarge), doc;
    }
    next := new CanvasDocument.Clone(doc);
    var inverse := [];
    var i := 0;
    ghost var d := doc.Contents();
    while i < |ops|
      invariant 0 <= i <= |ops|
      invariant next.Valid()
      invariant doc.Contents() == d
      invariant ApplyAll(table, d, ops[..i], who) == Ok(next.Contents())
      invariant Recorded(table, d, ops[..i], who, inverse)
    {
      assert ops[..i + 1][..i] == ops[..i];
      var applied := Dispatch(table, next, ops[i], who);
      if applied.Err? {
        ApplyAllFails(table, d, ops, who, i + 1);
        return Err(applied.code), doc;
      }
      assert (inverse + [applied.value])[..i] == inverse;
      inverse := inverse + [applied.value];
      i := i + 1;
    }
    assert ops[..i] == ops;
    next.version := doc.version + 1;
    next.updatedAt := who.now;
    return Ok(BatchResult(next.version, |ops|, inverse)), next;
  }

  /** Applying two lists one after the other is applying their concatenation. */
  lemma {:induction false} ApplyAllConcat(table: Table, d: Doc, a: seq<Op>, b: seq<Op>, who: Stamp)
    ensures ApplyAll(table, d, a + b, who)
         == if ApplyAll(table, d, a, who).Err? then ApplyAll(table, d, a, who)
            else ApplyAll(table, ApplyAll(table, d, a, who).value, b, who)
    decreases |b|
  {
    hide ApplyOp;
    if b == [] {
      assert a + b == a;
    } else {
      var front := b[..|b| - 1];
      assert (a + b)[..|a + b| - 1] == a + front;
      assert (a + b)[|a + b| - 1] == b[|b| - 1];
      ApplyAllConcat(table, d, a, front, who);
    }
  }

  lemma ApplyAllSnoc(table: Table, d: Doc, ops: seq<Op>, op: Op, who: Stamp)
    ensures ApplyAll(table, d, ops + [op], who)
         == if ApplyAll(table, d, ops, who).Err? then ApplyAll(table, d, ops, who)
            else ApplyOp(table, ApplyAll(table, d, ops, who).value, op, who)
  {
    hide ApplyOp;
    assert (ops + [op])[..|ops|] == ops;
  }

  /** A list of accepted steps, document by document, is an accepted list. */
  lemma {:induction false} ApplyAllSteps(table: Table, docs: seq<Doc>, ops: seq<Op>, who: Stamp)
    requires |docs| == |ops| + 1
    requires forall i :: 0 <= i < |ops| ==> ApplyOp(table, docs[i], ops[i], who) == Ok(docs[i + 1])
    ensures ApplyAll(table, docs[0], ops, who) == Ok(docs[|ops|])
    decreases |ops|
  {
    hide ApplyOp;
    if ops != [] {
      ApplyAllSteps(table, docs[..|ops|], ops[..|ops| - 1], who);
    }
  }

  lemma ApplyAllOne(table: Table, d: Doc, op: Op, who: Stamp)
    ensures ApplyAll(table, d, [op], who) == ApplyOp(table, d, op, who)
  {
    assert [op][..0] == [];
    assert ApplyAll(table, d, [], who) == Ok(d);
  }

  /** A rejected prefix rejects the whole batch with the same code. */
  lemma {:induction false} ApplyAllFails(table: Table, d: Doc, ops: seq<Op>, who: Stamp, n: nat)
    requires n <= |ops| && ApplyAll(table, d, ops[..n], who).Err?
    ensures ApplyAll(table, d, ops, who) == ApplyAll(table, d, ops[..n], who)
    decreases |ops|
  {
    if n == |ops| {
      assert ops[..n] == ops;
    } else {
      assert ops[..|ops| - 1][..n] == ops[..n];
      ApplyAllFails(table, d, ops[..|ops| - 1], who, n);
    }
  }
}
