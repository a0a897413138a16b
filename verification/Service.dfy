/** The canvas service: the one write path, with its version check and automatic rebase, and the replay audit. */
module Service {
  import opened Outcomes
  import opened Documents
  import opened Schemas
  import opened Operations
  import opened Canvas
  import opened Batches
  import opened Rebase
  import opened Store
  import opened Replay
  import opened WellFormed

  /** How many records beyond one per missing version a rebase looks at. */
  const RebaseSlack := 16
  const ReplayLimit := 1_000_000

  function OpsOf(records: seq<Record>): seq<Op> {
    seq(|records|, i requires 0 <= i < |records| => records[i].op)
  }

  /** The in-flight operations a rebase from `base` gets to see, out of the canvas as it is now. */
  function Inspected(c: CanvasState, base: int, version: int): seq<Op> {
    OpsOf(AfterSeq(c.log, SeqOfVersion(c.index, base), LimitOf(version - base + RebaseSlack)))
  }

  /** What becomes of a batch based on version `base`, given the snapshot read and the records listed. */
  ghost function Decide(table: Table, snapshot: Stored, inspected: seq<Op>, base: int, ops: seq<Op>,
                        who: Stamp): Outcome<Doc> {
    if base < 0 || base > snapshot.version then Err(Conflict)
    else if base != snapshot.version && !MayRebase(ops, inspected) then Err(Conflict)
    else BatchOutcome(table, snapshot.doc, ops, who)
  }

  /** A document of its own, equal to the stored one. */
  method Load(id: string, s: Stored) returns (doc: CanvasDocument)
    ensures fresh(doc) && doc.id == id && doc.projectId == s.projectId
    ensures doc.Contents() == s.doc && doc.version == s.version && doc.updatedAt == s.updatedAt
  {
    doc := new CanvasDocument.New(id, s.projectId);
    doc.version, doc.updatedAt := s.version, s.updatedAt;
    doc.viewport, doc.settings, doc.nodes, doc.edges := s.doc.viewport, s.doc.settings, s.doc.nodes, s.doc.edges;
  }

  datatype Submitted = Submitted(version: int, rebased: bool, inverse: seq<Inverse>)

  /** One write, start to end, with nothing else touching the store in between. */
  method AppendOps(table: Table, store: MemoryStore, id: string, base: int, ops: seq<Op>, actor: string, now: int)
    returns (r: Outcome<Submitted>)
    requires store.Canvas(id).stored.Some? ==> Keyed(store.Canvas(id).stored.value.doc)
    modifies store
    ensures !ValidId(id) ==> r == Err(NotFound)
    ensures ValidId(id) && actor == "" ==> r == Err(Forbidden)
    ensures ValidId(id) && actor != "" && old(store.Canvas(id)).stored.None? ==> r == Err(NotFound)
    ensures ValidId(id) && actor != "" && old(store.Canvas(id)).stored.Some? ==>
      var c := old(store.Canvas(id));
      var version := c.stored.value.version;
      if |ops| == 0 then r == Ok(Submitted(version, false, [])) && store.Canvas(id) == c
      else
        var seen := Inspected(c, base, version);
        match Decide(table, c.stored.value, seen, base, ops, Stamp(actor, now))
        case Err(code) => r == Err(code)
        case Ok(d) =>
          r.Ok? && r.value.version == version + 1 && r.value.rebased == (base != version && |seen| > 0)
          && Recorded(table, c.stored.value.doc, ops, Stamp(actor, now), r.value.inverse)
          && store.Canvas(id) == Appended(c, id, d, ops, actor, now)
    ensures r.Err? ==> store.Canvas(id) == old(store.Canvas(id))
    ensures forall other :: other != id ==> store.Canvas(other) == old(store.Canvas(other))
  {
    hide ApplyAll, MayRebase, AfterSeq, SeqOfVersion, Appended, Recorded, ValidId;
    if !ValidId(id) {
      return Err(NotFound);
    }
    if actor == "" {
      return Err(Forbidden);
    }
    var loaded := store.GetDocument(id);
    if loaded.Err? {
      return Err(loaded.code);
    }
    var current := loaded.value;
    if |ops| == 0 {
      return Ok(Submitted(current.version, false, []));
    }
    if base < 0 || base > current.version {
      return Err(Conflict);
    }
    var kinds: seq<string> := [];
    if base != current.version {
      var missing := store.ListOpsSinceVersion(id, base, current.version - base + RebaseSlack);
      var mergeable: bool;
      mergeable, kinds := Rebaseable(ops, OpsOf(missing));
      if !mergeable {
        return Err(Conflict);
      }
    }
    var doc := Load(id, current);
    var applied, next := Apply(table, doc, ops, Stamp(actor, now));
    if applied.Err? {
      return Err(applied.code);
    }
    var committed, records := store.AppendOps(id, current.version, Doc(next.viewport, next.settings, next.nodes, next.edges), ops, actor, now);
    return Ok(Submitted(committed.value, |kinds| > 0, applied.value.inverse));
  }

  // ---------------------------------------------------------------- the audit

  /** The comparison of a document with its replay; fields it does not look at may differ. */
  predicate NoDifference(a: Doc, versionA: int, b: Doc, versionB: int) {
    && versionA == versionB
    && a.viewport == b.viewport && a.settings == b.settings
    && |a.nodes| == |b.nodes|
    && (forall k :: k in a.nodes ==> k in b.nodes && NodesMatch(a.nodes[k], b.nodes[k]))
    && (forall k :: k in b.nodes ==> k in a.nodes)
    && |a.edges| == |b.edges|
    && (forall k :: k in a.edges ==> k in b.edges && EdgesMatch(a.edges[k], b.edges[k]))
  }

  predicate NodesMatch(a: Node, b: Node) {
    a.ty == b.ty && a.rect == b.rect && a.title == b.title && a.parentId == b.parentId && a.state == b.state && a.spec == b.spec
  }

  predicate EdgesMatch(a: Edge, b: Edge) {
    a.from == b.from && a.to == b.to && a.kind == b.kind
  }

  datatype Audit = Consistent | Inconsistent | Unreplayable(code: Code)

  method OpenReplay(table: Table, store: MemoryStore, id: string) returns (r: Outcome<Audit>)
    ensures store.Canvas(id).stored.None? ==> r == Err(NotFound)
    ensures store.Canvas(id).stored.Some? ==> r == Ok(AuditOf(table, store.Canvas(id)))
  {
    var records := store.ListOps(id, 0, ReplayLimit);
    var loaded := store.GetDocument(id);
    if loaded.Err? {
      return Err(loaded.code);
    }
    var current := loaded.value;
    var doc := Load(id, current);
    var replayed, out := Replay.Replay(table, doc, OpsOf(records), doc.updatedAt);
    if replayed.Fail? {
      return Ok(Unreplayable(replayed.code));
    }
    if NoDifference(current.doc, current.version, Doc(out.viewport, out.settings, out.nodes, out.edges), out.version) {
      return Ok(Consistent);
    }
    return Ok(Inconsistent);
  }

  ghost function AuditOf(table: Table, c: CanvasState): Audit
    requires c.stored.Some?
  {
    var ops := OpsOf(AfterSeq(c.log, 0, ReplayLimit));
    var s := c.stored.value;
    match ApplyAll(table, ReplayStart(s.doc.settings), ops, Stamp("replay", s.updatedAt))
    case Err(code) => Unreplayable(code)
    case Ok(d) => if NoDifference(s.doc, s.version, d, |ops|) then Consistent else Inconsistent
  }

  /** The fields the audit compares: two nodes it cannot tell apart. */
  predicate LookAlike(a: Node, b: Node) {
    && a.ty == b.ty && a.title == b.title && a.parentId == b.parentId && a.state == b.state && a.spec == b.spec
    && a.rect.x == b.rect.x && a.rect.y == b.rect.y && a.rect.w == b.rect.w && a.rect.h == b.rect.h
  }

  /**
   * On any stored canvas, reachable or tampered with: the audit says consistent exactly when the log replays to as many
   * versions as are stored, the same viewport and settings, the same nodes up to the compared fields, and the same edges
   * up to author and time.
   */
  lemma ConsistentExactly(table: Table, c: CanvasState, replayed: Doc)
    requires c.stored.Some?
    requires ApplyAll(table, Doc(Viewport(0.0, 0.0, 1.0), c.stored.value.doc.settings, map[], map[]),
                      OpsOf(AfterSeq(c.log, 0, 1_000_000)), Stamp("replay", c.stored.value.updatedAt)) == Ok(replayed)
    ensures AuditOf(table, c) == Consistent || AuditOf(table, c) == Inconsistent
    ensures var s := c.stored.value;
      AuditOf(table, c) == Consistent
      <==> && s.version == |AfterSeq(c.log, 0, 1_000_000)|
           && s.doc.viewport == replayed.viewport && s.doc.settings == replayed.settings
           && s.doc.nodes.Keys == replayed.nodes.Keys && s.doc.edges.Keys == replayed.edges.Keys
           && (forall k :: k in s.doc.nodes ==> LookAlike(s.doc.nodes[k], replayed.nodes[k]))
           && (forall k :: k in s.doc.edges ==>
                 var a, b := s.doc.edges[k], replayed.edges[k];
                 a.from == b.from && a.to == b.to && a.kind == b.kind)
  {
    hide ApplyAll, AfterSeq;
    NoDifferenceExactly(c.stored.value.doc, c.stored.value.version, replayed, |AfterSeq(c.log, 0, 1_000_000)|);
  }

  lemma NoDifferenceExactly(a: Doc, versionA: int, b: Doc, versionB: int)
    ensures NoDifference(a, versionA, b, versionB)
       <==> && versionA == versionB && a.viewport == b.viewport && a.settings == b.settings
            && a.nodes.Keys == b.nodes.Keys && a.edges.Keys == b.edges.Keys
            && (forall k :: k in a.nodes ==> LookAlike(a.nodes[k], b.nodes[k]))
            && (forall k :: k in a.edges ==> a.edges[k].from == b.edges[k].from && a.edges[k].to == b.edges[k].to && a.edges[k].kind == b.edges[k].kind)
  {
    forall m: Node, n: Node
      ensures NodesMatch(m, n) <==> LookAlike(m, n)
    {
    }
    hide NodesMatch, LookAlike;
    assert |a.nodes| == |a.nodes.Keys| && |b.nodes| == |b.nodes.Keys| && |a.edges| == |a.edges.Keys| && |b.edges| == |b.edges.Keys|;
    if a.edges.Keys <= b.edges.Keys && |a.edges| == |b.edges| {
      SubsetOfSameSize(a.edges.Keys, b.edges.Keys);
    }
  }

  lemma {:induction false} SubsetOfSameSize<T>(a: set<T>, b: set<T>)
    requires a <= b && |a| == |b|
    ensures a == b
  {
    if x :| x in b {
      if x in a {
        SubsetOfSameSize(a - {x}, b - {x});
      } else {
        CardinalityMono(a, b - {x});
      }
    }
  }
}
