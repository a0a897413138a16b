/** Replaying an operation log, and why it gives the stored contents whatever stamps and settings it starts from. */
module Replay {
  import opened Outcomes
  import opened Digraphs
  import opened Documents
  import opened Schemas
  import opened Operations
  import opened Canvas
  import opened Batches

  // ---------------------------------------------------------------- edge stamps do not matter

  predicate SameLink(a: Edge, b: Edge) {
    a.id == b.id && a.from == b.from && a.to == b.to && a.kind == b.kind
  }

  /** The same edges, author and time stamps aside. */
  predicate SameLinks(a: map<string, Edge>, b: map<string, Edge>) {
    a.Keys == b.Keys && forall k :: k in a ==> SameLink(a[k], b[k])
  }

  /** The same nodes, edges and viewport; settings are followed separately. */
  predicate SameCanvas(a: Doc, b: Doc) {
    a.nodes == b.nodes && a.viewport == b.viewport && SameLinks(a.edges, b.edges)
  }

  lemma SameFlow(a: map<string, Edge>, b: map<string, Edge>)
    requires SameLinks(a, b)
    ensures FlowGraph(a) == FlowGraph(b)
  {
    forall arc | arc in FlowGraph(a)
      ensures arc in FlowGraph(b)
    {
      var k :| k in a && arc == (a[k].from.nodeId, a[k].to.nodeId);
      assert SameLink(a[k], b[k]) && k in b;
    }
    forall arc | arc in FlowGraph(b)
      ensures arc in FlowGraph(a)
    {
      var k :| k in b && arc == (b[k].from.nodeId, b[k].to.nodeId);
      assert k in a && SameLink(a[k], b[k]);
    }
  }

  lemma SameSize(a: map<string, Edge>, b: map<string, Edge>)
    requires SameLinks(a, b)
    ensures |a| == |b|
  {
    assert |a| == |a.Keys| && |b| == |b.Keys|;
  }

  lemma SameIncidence(a: map<string, Edge>, b: map<string, Edge>, id: string)
    requires SameLinks(a, b)
    ensures SameLinks(WithoutIncident(a, id), WithoutIncident(b, id))
    ensures IncidentEdges(a, id) == {} <==> IncidentEdges(b, id) == {}
  {
    forall k | k in a
      ensures k in b && (Incident(a[k], id) <==> Incident(b[k], id))
    {
      assert SameLink(a[k], b[k]);
    }
    NoneIncident(a, id);
    NoneIncident(b, id);
  }

  lemma NoneIncident(edges: map<string, Edge>, id: string)
    ensures IncidentEdges(edges, id) == {} <==> forall k :: k in edges ==> !Incident(edges[k], id)
  {
    forall k | k in edges && Incident(edges[k], id)
      ensures edges[k] in IncidentEdges(edges, id)
    {
    }
  }

  lemma SameAddEdge(a: Doc, b: Doc, e: Edge, wa: Stamp, wb: Stamp)
    requires SameCanvas(a, b)
    ensures ApplyAddEdge(a, e, wa).Ok? == ApplyAddEdge(b, e, wb).Ok?
    ensures ApplyAddEdge(a, e, wa).Ok? ==> SameCanvas(ApplyAddEdge(a, e, wa).value, ApplyAddEdge(b, e, wb).value)
  {
    hide WithoutReplaced, CheckEdge, FlowGraph, ParentGraph, Reaches, OutPort;
    SameChecks(a, b, e);
    SameReplaced(a, b, e);
    SameFlow(WithoutReplaced(a, e), WithoutReplaced(b, e));
  }

  lemma SameChecks(a: Doc, b: Doc, e: Edge)
    requires SameCanvas(a, b)
    ensures CheckEdge(a, e) == CheckEdge(b, e) && OutPort(a, e) == OutPort(b, e)
  {
    SameSize(a.edges, b.edges);
  }

  lemma SameReplaced(a: Doc, b: Doc, e: Edge)
    requires SameCanvas(a, b)
    ensures SameLinks(WithoutReplaced(a, e), WithoutReplaced(b, e))
  {
    forall k | k in a.edges
      ensures k in b.edges && a.edges[k].to == b.edges[k].to
    {
      assert SameLink(a.edges[k], b.edges[k]);
    }
  }

  /** No operation looks at stamps or settings to decide, and what it does to the rest is the same. */
  lemma SameStep(table: Table, a: Doc, b: Doc, op: Op, wa: Stamp, wb: Stamp)
    requires SameCanvas(a, b)
    ensures ApplyOp(table, a, op, wa).Ok? == ApplyOp(table, b, op, wb).Ok?
    ensures ApplyOp(table, a, op, wa).Ok? ==> SameCanvas(ApplyOp(table, a, op, wa).value, ApplyOp(table, b, op, wb).value)
  {
    hide ApplyAddEdge, WithoutIncident, IncidentEdges, Adopt, MovedNode, ResizedNode, TitledNode, ConfiguredNode, StatedNode,
      Normalized, CheckParent, SpecCheck, Orphaned, ChildIds, PatchedSettings, GroupRect;
    match op
    case AddEdge(e) => SameAddEdge(a, b, e, wa, wb);
    case RemoveNode(id, _) => SameIncidence(a.edges, b.edges, id);
    case Ungroup(group, _) => SameIncidence(a.edges, b.edges, group);
    case _ =>
  }

  lemma {:induction false} SameRun(table: Table, a: Doc, b: Doc, ops: seq<Op>, wa: Stamp, wb: Stamp)
    requires SameCanvas(a, b)
    ensures ApplyAll(table, a, ops, wa).Ok? == ApplyAll(table, b, ops, wb).Ok?
    ensures ApplyAll(table, a, ops, wa).Ok? ==> SameCanvas(ApplyAll(table, a, ops, wa).value, ApplyAll(table, b, ops, wb).value)
    decreases |ops|
  {
    hide ApplyOp, SameCanvas;
    if ops != [] {
      var front := ops[..|ops| - 1];
      SameRun(table, a, b, front, wa, wb);
      if ApplyAll(table, a, front, wa).Ok? {
        SameStep(table, ApplyAll(table, a, front, wa).value, ApplyAll(table, b, front, wb).value, ops[|ops| - 1], wa, wb);
      }
    }
  }

  // ---------------------------------------------------------------- settings follow the log

  function PatchOf(op: Op): map<string, Value> {
    if op.SetSettings? then op.settings else map[]
  }

  /** All settings changes of a list merged into one, later ones winning. */
  function MergedPatch(ops: seq<Op>): map<string, Value> {
    if ops == [] then map[] else MergedPatch(ops[..|ops| - 1]) + PatchOf(ops[|ops| - 1])
  }

  ghost predicate PatchOk(patch: map<string, Value>) {
    forall k :: k in patch ==> SettingOk(k, patch[k])
  }

  lemma SettingTwice(key: string, p: map<string, Value>, q: map<string, Value>, was: bool)
    requires key in q ==> q[key].Bool?
    ensures Setting(key, q, Setting(key, p, was)) == Setting(key, p + q, was)
  {
  }

  lemma PatchKinds(q: map<string, Value>)
    requires PatchOk(q)
    ensures "background" in q ==> q["background"].Str?
    ensures forall key :: key in ["imageInfo", "gridSnap", "readOnly", "freeResize"] && key in q ==> q[key].Bool?
  {
    assert "background" in q ==> SettingOk("background", q["background"]);
  }

  lemma PatchTwice(s: Settings, p: map<string, Value>, q: map<string, Value>)
    requires PatchOk(q)
    ensures PatchedSettings(PatchedSettings(s, p), q) == PatchedSettings(s, p + q)
  {
    hide PatchOk, Setting;
    PatchKinds(q);
    SettingTwice("imageInfo", p, q, s.imageInfo);
    SettingTwice("gridSnap", p, q, s.gridSnap);
    SettingTwice("readOnly", p, q, s.readOnly);
    SettingTwice("freeResize", p, q, s.freeResize);
  }

  lemma StepSettings(table: Table, d: Doc, op: Op, who: Stamp)
    requires ApplyOp(table, d, op, who).Ok?
    ensures ApplyOp(table, d, op, who).value.settings == PatchedSettings(d.settings, PatchOf(op)) && PatchOk(PatchOf(op))
  {
    if op.SetSettings? {
      ChangedSettings(d, op.settings);
    } else {
      hide PatchedSettings;
      EmptyPatch(d.settings);
      OthersLeaveSettings(table, d, op, who);
    }
  }

  lemma ChangedSettings(d: Doc, patch: map<string, Value>)
    requires ApplySetSettings(d, patch).Ok?
    ensures ApplySetSettings(d, patch).value.settings == PatchedSettings(d.settings, patch) && PatchOk(patch)
  {
  }

  lemma OthersLeaveSettings(table: Table, d: Doc, op: Op, who: Stamp)
    requires !op.SetSettings? && ApplyOp(table, d, op, who).Ok?
    ensures ApplyOp(table, d, op, who).value.settings == d.settings
  {
    hide SchemaFor, SpecCheck, CheckParent, CheckEdge, Adopt, MovedNode, ResizedNode, TitledNode, ConfiguredNode, StatedNode,
      GroupRect, Orphaned, WithoutIncident, WithoutReplaced, Normalized, Stamped, ApplySetSettings;
  }

  /** The settings after a list are the settings before it under the merged change. */
  lemma {:induction false} SettingsAfter(table: Table, d: Doc, ops: seq<Op>, who: Stamp)
    requires ApplyAll(table, d, ops, who).Ok?
    ensures ApplyAll(table, d, ops, who).value.settings == PatchedSettings(d.settings, MergedPatch(ops))
    decreases |ops|
  {
    hide ApplyOp, PatchedSettings;
    if ops == [] {
      EmptyPatch(d.settings);
    } else {
      var front := ops[..|ops| - 1];
      SettingsAfter(table, d, front, who);
      StepSettings(table, ApplyAll(table, d, front, who).value, ops[|ops| - 1], who);
      PatchTwice(d.settings, MergedPatch(front), PatchOf(ops[|ops| - 1]));
    }
  }

  lemma EmptyPatch(s: Settings)
    ensures PatchedSettings(s, map[]) == s
  {
  }

  lemma PatchAgain(s: Settings, p: map<string, Value>)
    ensures PatchedSettings(PatchedSettings(s, p), p) == PatchedSettings(s, p)
  {
  }

  // ---------------------------------------------------------------- the theorem

  /** The same nodes, edges, viewport and settings, edge stamps aside. */
  predicate SameContents(a: Doc, b: Doc) {
    SameCanvas(a, b) && a.settings == b.settings
  }

  /** Replay starts from an empty document that already carries the final settings. */
  function ReplayStart(settings: Settings): Doc {
    EmptyDoc.(settings := settings)
  }

  /** Whatever the stamps, replaying from the final settings ends in the contents the operations built. */
  lemma ReplayReproduces(table: Table, ops: seq<Op>, who: Stamp, d: Doc, replayer: Stamp)
    requires ApplyAll(table, EmptyDoc, ops, who).Ok? && SameContents(ApplyAll(table, EmptyDoc, ops, who).value, d)
    ensures ApplyAll(table, ReplayStart(d.settings), ops, replayer).Ok?
    ensures SameContents(ApplyAll(table, ReplayStart(d.settings), ops, replayer).value, d)
  {
    hide ApplyAll, PatchedSettings;
    SameRun(table, EmptyDoc, ReplayStart(d.settings), ops, who, replayer);
    SettingsAfter(table, EmptyDoc, ops, who);
    SettingsAfter(table, ReplayStart(d.settings), ops, replayer);
    PatchAgain(DefaultSettings, MergedPatch(ops));
    var built, again := ApplyAll(table, EmptyDoc, ops, who).value, ApplyAll(table, ReplayStart(d.settings), ops, replayer).value;
    assert forall k :: k in d.edges ==> SameLink(built.edges[k], again.edges[k]) && SameLink(built.edges[k], d.edges[k]);
  }

  method Replay(table: Table, doc: CanvasDocument, ops: seq<Op>, now: int) returns (r: Check, out: CanvasDocument)
    ensures match ApplyAll(table, Doc(Viewport(0.0, 0.0, 1.0), doc.settings, map[], map[]), ops, Stamp("replay", now))
      case Ok(d) => r == Pass && out.Contents() == d && out.version == |ops|
      case Err(code) => r == Fail(code)
  {
    hide ApplyOp;
    var who := Stamp("replay", now);
    out := new CanvasDocument.New(doc.id, doc.projectId);
    out.settings := doc.settings;
    ghost var start := ReplayStart(doc.settings);
    var i := 0;
    while i < |ops|
      invariant 0 <= i <= |ops|
      invariant out.Valid() && out.version == i
      invariant ApplyAll(table, start, ops[..i], who) == Ok(out.Contents())
    {
      assert ops[..i + 1] == ops[..i] + [ops[i]];
      ApplyAllConcat(table, start, ops[..i], [ops[i]], who);
      var applied, next := Apply(table, out, [ops[i]], who);
      if applied.Err? {
        ApplyAllFails(table, start, ops, who, i + 1);
        r := Fail(applied.code);
        return;
      }
      out := next;
      i := i + 1;
    }
    assert ops[..i] == ops;
    r := Pass;
  }
}
