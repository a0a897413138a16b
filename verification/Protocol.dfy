/**
 * Several server instances writing one canvas. Each reads a snapshot, later lists the in-flight
 * records and applies its batch, and later still tries a compare-and-set on the version; the steps
 * of different instances interleave in any order.
 */
module Protocol {
  import opened Outcomes
  import opened Documents
  import opened Schemas
  import opened Operations
  import opened WellFormed
  import opened CycleFreedom
  import opened Batches
  import opened Rebase
  import opened MergeRules
  import opened Store
  import opened Replay
  import opened Service

  datatype Request = Request(base: int, ops: seq<Op>, who: Stamp)

  datatype Instance =
    | Idle
    | Holding(request: Request, snapshot: Stored)
    | Ready(request: Request, snapshot: Stored, inspected: seq<Op>, next: Doc)

  datatype System = System(canvas: CanvasState, instances: seq<Instance>)

  /** The service turns away anonymous and empty writes before it reads anything. */
  predicate Acceptable(r: Request) {
    r.ops != [] && r.who.actor != ""
  }

  ghost predicate Start(s: System, first: Stored) {
    && first.version == 0 && first.doc == EmptyDoc
    && s.canvas == Created(NewCanvas, first)
    && forall i :: 0 <= i < |s.instances| ==> s.instances[i] == Idle
  }

  /** An idle instance takes a request and reads the document. */
  ghost predicate Read(s: System, t: System, i: nat, r: Request) {
    && i < |s.instances| && s.instances[i].Idle? && s.canvas.stored.Some? && Acceptable(r)
    && t == s.(instances := s.instances[i := Holding(r, s.canvas.stored.value)])
  }

  /** It lists the records since its base version, decides, and applies the batch to its snapshot. */
  ghost predicate Check(table: Table, s: System, t: System, i: nat) {
    && i < |s.instances| && s.instances[i].Holding?
    && var h := s.instances[i];
       var seen := Inspected(s.canvas, h.request.base, h.snapshot.version);
       match Decide(table, h.snapshot, seen, h.request.base, h.request.ops, h.request.who)
       case Err(_) => t == s.(instances := s.instances[i := Idle])
       case Ok(d) => t == s.(instances := s.instances[i := Ready(h.request, h.snapshot, seen, d)])
  }

  /** The compare-and-set succeeds, and the batch is stored. */
  ghost predicate Commit(s: System, t: System, i: nat) {
    && i < |s.instances| && s.instances[i].Ready? && s.canvas.stored.Some?
    && s.canvas.stored.value.version == s.instances[i].snapshot.version
    && var a := s.instances[i];
       t == System(Appended(s.canvas, "", a.next, a.request.ops, a.request.who.actor, a.request.who.now), s.instances[i := Idle])
  }

  /** The version moved on in the meantime: the batch is dropped. */
  ghost predicate Lose(s: System, t: System, i: nat) {
    && i < |s.instances| && s.instances[i].Ready? && s.canvas.stored.Some?
    && s.canvas.stored.value.version != s.instances[i].snapshot.version
    && t == s.(instances := s.instances[i := Idle])
  }

  ghost predicate StepOf(table: Table, s: System, t: System, i: nat) {
    Check(table, s, t, i) || Commit(s, t, i) || Lose(s, t, i) || exists r :: Read(s, t, i, r)
  }

  /** Any instance takes its next step. */
  ghost predicate Next(table: Table, s: System, t: System) {
    exists i: nat :: StepOf(table, s, t, i)
  }

  // ---------------------------------------------------------------- the invariant

  const Replayer := Stamp("replay", 0)

  /** Replaying the log one operation at a time gives the stored contents. */
  ghost predicate Replays(table: Table, c: CanvasState) {
    c.stored.Some? &&
    ApplyAll(table, EmptyDoc, OpsOf(c.log), Replayer).Ok? &&
    SameContents(ApplyAll(table, EmptyDoc, OpsOf(c.log), Replayer).value, c.stored.value.doc)
  }

  /** The log length before a version. */
  function LengthBefore(index: seq<VersionEntry>, j: nat): int
    requires j < |index|
  {
    if j == 0 then 0 else index[j - 1].seqNo
  }

  /** Every batch put at least one record into the log. */
  ghost predicate BatchesNonEmpty(c: CanvasState) {
    forall j :: 0 <= j < |c.index| ==> LengthBefore(c.index, j) < c.index[j].seqNo
  }

  ghost predicate Faithful(table: Table, c: CanvasState) {
    LogOk(c) && Replays(table, c) && BatchesNonEmpty(c)
  }

  /** What an instance holds is no newer than the store, and equal to it while the version has not moved. */
  ghost predicate InstanceOk(table: Table, c: CanvasState, a: Instance) {
    match a
    case Idle => true
    case Holding(r, snapshot) => Acceptable(r) && SnapshotOk(c, snapshot)
    case Ready(r, snapshot, inspected, next) =>
      Acceptable(r) && SnapshotOk(c, snapshot) && 0 <= r.base <= snapshot.version
      && (r.base != snapshot.version ==> MayRebase(r.ops, inspected))
      && BatchOutcome(table, snapshot.doc, r.ops, r.who) == Ok(next)
      && (c.stored.value.version == snapshot.version ==> inspected == Inspected(c, r.base, snapshot.version))
  }

  ghost predicate SnapshotOk(c: CanvasState, snapshot: Stored) {
    c.stored.Some? && snapshot.version <= c.stored.value.version &&
    (snapshot.version == c.stored.value.version ==> snapshot == c.stored.value)
  }

  ghost predicate Inv(table: Table, s: System) {
    Faithful(table, s.canvas) && forall i :: 0 <= i < |s.instances| ==> InstanceOk(table, s.canvas, s.instances[i])
  }

  lemma StartInv(table: Table, s: System, first: Stored)
    requires Start(s, first)
    ensures Inv(table, s)
  {
    hide ApplyOp;
    CreatedLogOk(first);
    assert OpsOf([]) == [];
    assert ApplyAll(table, EmptyDoc, [], Replayer) == Ok(EmptyDoc);
  }

  lemma OpsOfConcat(a: seq<Record>, b: seq<Record>)
    ensures OpsOf(a + b) == OpsOf(a) + OpsOf(b)
  {
  }

  lemma OpsOfNumbered(last: int, canvasId: string, actor: string, ops: seq<Op>, version: int, at: int)
    ensures OpsOf(Numbered(last, canvasId, actor, ops, version, at)) == ops
  {
  }

  /** Storing the outcome of a batch on the stored document keeps the log replayable. */
  lemma AppendReplays(table: Table, c: CanvasState, canvasId: string, next: Doc, ops: seq<Op>, who: Stamp)
    requires Replays(table, c) && ApplyAll(table, c.stored.value.doc, ops, who) == Ok(next)
    ensures Replays(table, Appended(c, canvasId, next, ops, who.actor, who.now))
  {
    hide ApplyAll, PatchedSettings;
    var d := c.stored.value.doc;
    var built := ApplyAll(table, EmptyDoc, OpsOf(c.log), Replayer).value;
    var records := Numbered(c.lastSeq, canvasId, who.actor, ops, c.stored.value.version + 1, who.now);
    OpsOfConcat(c.log, records);
    OpsOfNumbered(c.lastSeq, canvasId, who.actor, ops, c.stored.value.version + 1, who.now);
    ApplyAllConcat(table, EmptyDoc, OpsOf(c.log), ops, Replayer);
    SameRun(table, built, d, ops, Replayer, who);
    SettingsAfter(table, built, ops, Replayer);
    SettingsAfter(table, d, ops, who);
  }

  lemma AppendFaithful(table: Table, c: CanvasState, canvasId: string, next: Doc, ops: seq<Op>, who: Stamp)
    requires Faithful(table, c) && ops != [] && BatchOutcome(table, c.stored.value.doc, ops, who) == Ok(next)
    ensures Faithful(table, Appended(c, canvasId, next, ops, who.actor, who.now))
  {
    hide ApplyAll, Replays;
    AppendReplays(table, c, canvasId, next, ops, who);
    AppendedLogOk(c, canvasId, next, ops, who.actor, who.now);
    BatchesStayNonEmpty(c, canvasId, next, ops, who);
  }

  lemma BatchesStayNonEmpty(c: CanvasState, canvasId: string, next: Doc, ops: seq<Op>, who: Stamp)
    requires LogOk(c) && BatchesNonEmpty(c) && ops != []
    ensures BatchesNonEmpty(Appended(c, canvasId, next, ops, who.actor, who.now))
  {
    var d := Appended(c, canvasId, next, ops, who.actor, who.now);
    assert |c.index| == 0 ==> |c.log| == 0 by {
      assert |c.log| > 0 ==> 1 <= c.log[0].version <= |c.index|;
    }
    forall j | 0 <= j < |d.index|
      ensures LengthBefore(d.index, j) < d.index[j].seqNo
    {
      if j < |c.index| {
        assert LengthBefore(c.index, j) < c.index[j].seqNo;
      }
    }
  }

  /** An instance of the old store is still sound after the version moved past its snapshot. */
  lemma InstanceSurvivesAppend(table: Table, c: CanvasState, a: Instance, canvasId: string, next: Doc,
                               ops: seq<Op>, who: Stamp)
    requires LogOk(c) && InstanceOk(table, c, a)
    ensures InstanceOk(table, Appended(c, canvasId, next, ops, who.actor, who.now), a)
  {
    hide ApplyAll, MayRebase, Inspected;
  }

  lemma StepKeepsInv(table: Table, s: System, t: System)
    requires Inv(table, s) && Next(table, s, t)
    ensures Inv(table, t)
  {
    hide BatchOutcome, MayRebase, Inspected, Faithful, InstanceOk, Appended;
    var i: nat :| StepOf(table, s, t, i);
    if Commit(s, t, i) {
      CommitKeepsInv(table, s, t, i);
    } else {
      assert t.canvas == s.canvas && |t.instances| == |s.instances|;
      LocalStepKeepsInstance(table, s, t, i);
    }
  }

  lemma LocalStepKeepsInstance(table: Table, s: System, t: System, i: nat)
    requires Inv(table, s)
    requires Check(table, s, t, i) || Lose(s, t, i) || exists r :: Read(s, t, i, r)
    ensures InstanceOk(table, s.canvas, t.instances[i])
  {
    hide MayRebase, Inspected, ApplyAll;
    assert InstanceOk(table, s.canvas, s.instances[i]);
  }

  lemma CommitKeepsInv(table: Table, s: System, t: System, i: nat)
    requires Inv(table, s) && Commit(s, t, i)
    ensures Inv(table, t)
  {
    hide BatchOutcome, MayRebase, Inspected, LogOk, Replays, BatchesNonEmpty, Appended;
    var a := s.instances[i];
    assert InstanceOk(table, s.canvas, a);
    AppendFaithful(table, s.canvas, "", a.next, a.request.ops, a.request.who);
    forall j | 0 <= j < |t.instances|
      ensures InstanceOk(table, t.canvas, t.instances[j])
    {
      if j != i {
        InstanceSurvivesAppend(table, s.canvas, s.instances[j], "", a.next, a.request.ops, a.request.who);
      }
    }
  }

  // ---------------------------------------------------------------- runs

  ghost predicate IsRun(table: Table, run: seq<System>, first: Stored) {
    && |run| > 0 && Start(run[0], first)
    && forall k :: 0 < k < |run| ==> Next(table, run[k - 1], run[k])
  }

  /**
   * In every interleaving, at every moment: replaying the log one operation at a time gives the
   * stored nodes, edges, viewport and settings, the version counts the accepted batches, and the
   * sequence numbers have no gap.
   */
  lemma {:induction false} EveryRunReplays(table: Table, run: seq<System>, first: Stored, k: nat)
    requires IsRun(table, run, first) && k < |run|
    ensures Inv(table, run[k])
    ensures Replays(table, run[k].canvas) && LogOk(run[k].canvas)
  {
    hide Start, Next, InstanceOk, LogOk, Replays, BatchesNonEmpty;
    if k == 0 {
      StartInv(table, run[0], first);
    } else {
      EveryRunReplays(table, run, first, k - 1);
      StepKeepsInv(table, run[k - 1], run[k]);
    }
  }

  /** A request that deletes no children, stamped past the zero time. */
  predicate Tame(a: Instance) {
    a.Idle? || (StampOk(a.request.who) && forall j :: 0 <= j < |a.request.ops| ==> !DeletesChildren(a.request.ops[j]))
  }

  lemma CommitKeepsWellFormed(table: Table, s: System, t: System, i: nat)
    requires Inv(table, s) && Commit(s, t, i) && Tame(s.instances[i]) && WF(table, s.canvas.stored.value.doc)
    ensures WF(table, t.canvas.stored.value.doc)
  {
    hide ApplyAll, MayRebase, Inspected, WF, Faithful;
    var a := s.instances[i];
    assert InstanceOk(table, s.canvas, a);
    BatchKeepsWellFormed(table, s.canvas.stored.value.doc, a.request.ops, a.request.who);
  }

  /** While no request deletes the children of a group, every stored document of every run is well formed. */
  lemma {:induction false} EveryRunStaysWellFormed(table: Table, run: seq<System>, first: Stored, k: nat)
    requires IsRun(table, run, first) && k < |run|
    requires forall m, i :: 0 <= m < |run| && 0 <= i < |run[m].instances| ==> Tame(run[m].instances[i])
    ensures run[k].canvas.stored.Some? && WF(table, run[k].canvas.stored.value.doc)
  {
    hide ApplyAll, MayRebase, Inspected, WF, Inv, Decide, Tame;
    if k == 0 {
      EmptyDocIsWellFormed(table);
    } else {
      EveryRunStaysWellFormed(table, run, first, k - 1);
      EveryRunReplays(table, run, first, k - 1);
      assert Next(table, run[k - 1], run[k]);
      var i: nat :| StepOf(table, run[k - 1], run[k], i);
      if Commit(run[k - 1], run[k], i) {
        CommitKeepsWellFormed(table, run[k - 1], run[k], i);
      }
    }
  }

  lemma CommitKeepsNoCycles(table: Table, s: System, t: System, i: nat)
    requires Inv(table, s) && Commit(s, t, i) && NoCycles(s.canvas.stored.value.doc)
    ensures NoCycles(t.canvas.stored.value.doc)
  {
    hide ApplyAll, MayRebase, Inspected, NoCycles, Faithful;
    var a := s.instances[i];
    assert InstanceOk(table, s.canvas, a);
    BatchKeepsNoCycles(table, s.canvas.stored.value.doc, a.request.ops, a.request.who);
  }

  /** Whatever the requests ask for, child-deleting ungroups included, no stored document of any run has a cycle of edges or of parents. */
  lemma {:induction false} EveryRunKeepsNoCycles(table: Table, run: seq<System>, first: Stored, k: nat)
    requires IsRun(table, run, first) && k < |run|
    ensures run[k].canvas.stored.Some? && NoCycles(run[k].canvas.stored.value.doc)
  {
    hide ApplyAll, MayRebase, Inspected, NoCycles, Inv, Decide;
    if k == 0 {
      EmptyHasNoCycles();
    } else {
      EveryRunKeepsNoCycles(table, run, first, k - 1);
      EveryRunReplays(table, run, first, k - 1);
      assert Next(table, run[k - 1], run[k]);
      var i: nat :| StepOf(table, run[k - 1], run[k], i);
      if Commit(run[k - 1], run[k], i) {
        CommitKeepsNoCycles(table, run[k - 1], run[k], i);
      }
    }
  }

  /** A step moves the version by one exactly when it commits, and never rewrites the log. */
  lemma StepVersion(table: Table, s: System, t: System)
    requires Inv(table, s) && Next(table, s, t)
    ensures t.canvas.stored.Some? && s.canvas.log <= t.canvas.log
    ensures t.canvas.stored.value.version == s.canvas.stored.value.version + (if exists i: nat :: Commit(s, t, i) then 1 else 0)
  {
    hide BatchOutcome, MayRebase, Inspected, InstanceOk, Replays, BatchesNonEmpty, LogOk;
    assert LogOk(s.canvas) && s.canvas.stored.Some? by {
      assert Replays(table, s.canvas);
      StoredInReplay(table, s.canvas);
    }
  }

  lemma StoredInReplay(table: Table, c: CanvasState)
    requires Replays(table, c)
    ensures c.stored.Some?
  {
  }

  // ---------------------------------------------------------------- what a commit does to other people's writes

  /**
   * When a batch commits, what it was checked against is exactly the first records after its base
   * version in the log it is appended to, however the other instances interleaved.
   */
  lemma CommitWasCheckedAgainstTheLog(table: Table, s: System, t: System, i: nat)
    requires Inv(table, s) && Commit(s, t, i)
    ensures var a := s.instances[i];
      a.inspected == OpsOf(AfterVersion(s.canvas.log, a.request.base, a.snapshot.version - a.request.base + 16))
      && ApplyAll(table, s.canvas.stored.value.doc, a.request.ops, a.request.who) == Ok(t.canvas.stored.value.doc)
      && (a.request.base != a.snapshot.version ==> MayRebase(a.request.ops, a.inspected))
  {
    hide ApplyAll, MayRebase, Replays, BatchesNonEmpty, AfterSeq, AfterVersion, SeqOfVersion;
    var a := s.instances[i];
    assert InstanceOk(table, s.canvas, a);
    IndexLookupIsVersionFilter(s.canvas, a.request.base, LimitOf(a.snapshot.version - a.request.base + 16));
    assert LimitOf(a.snapshot.version - a.request.base + 16) == a.snapshot.version - a.request.base + 16;
    SameLimit(s.canvas.log, a.request.base, a.snapshot.version - a.request.base + 16);
  }

  lemma SameLimit(log: seq<Record>, since: int, limit: int)
    requires limit > 0
    ensures AfterVersion(log, since, LimitOf(limit)) == AfterVersion(log, since, limit)
  {
  }

  /**
   * In every interleaving a commit leaves alone each title, configuration, meta, state, result and
   * error that an inspected in-flight operation wrote, on every node the batch does not remove.
   */
  lemma CommitLosesNoWrite(table: Table, s: System, t: System, i: nat, written: Op, id: string, c: Channel)
    requires Inv(table, s) && Commit(s, t, i)
    requires var a := s.instances[i];
      a.request.base < a.snapshot.version && written in a.inspected && Writes(written, id, c)
      && forall j :: 0 <= j < |a.request.ops| ==> !Removes(a.request.ops[j], id)
    requires id in s.canvas.stored.value.doc.nodes
    ensures id in t.canvas.stored.value.doc.nodes
    ensures SameChannel(t.canvas.stored.value.doc.nodes[id], s.canvas.stored.value.doc.nodes[id], c)
  {
    hide ApplyAll, MayRebase, Inv, AfterVersion;
    var a := s.instances[i];
    CommitWasCheckedAgainstTheLog(table, s, t, i);
    RebaseLosesNoWrite(table, s.canvas.stored.value.doc, a.request.ops, a.inspected, a.request.who, written, id, c);
  }

  /** In every interleaving a commit takes out no node that an inspected in-flight operation added, moved, resized or configured. */
  lemma CommitRemovesNothingChanged(table: Table, s: System, t: System, i: nat, j: nat, k: nat)
    requires Inv(table, s) && Commit(s, t, i)
    requires var a := s.instances[i];
      a.request.base < a.snapshot.version && j < |a.request.ops| && a.request.ops[j].RemoveNode? && k < |a.inspected|
    ensures !ChangesSubstance(s.instances[i].inspected[k], s.instances[i].request.ops[j].id)
  {
    hide ApplyAll, MayRebase, Inv, AfterVersion, ChangesSubstance;
    var a := s.instances[i];
    CommitWasCheckedAgainstTheLog(table, s, t, i);
    RemovalMeetsNoChange(a.request.ops, a.inspected, j, k);
  }

  /** All records after a version, with no limit on their number. */
  function AllAfter(log: seq<Record>, since: int): seq<Record> {
    FirstMatching(log, LaterVersion(since), |log|)
  }

  lemma {:induction false} FirstMatchingIsPrefix(log: seq<Record>, test: Record -> bool, limit: nat, more: nat)
    requires limit <= more
    ensures var few, many := FirstMatching(log, test, limit), FirstMatching(log, test, more);
      |few| == (if |many| <= limit then |many| else limit) && few <= many
    decreases |log|
  {
    if log != [] {
      FirstMatchingIsPrefix(log[..|log| - 1], test, limit, more);
    }
  }

  lemma {:induction false} MatchingNoLongerThanLog(log: seq<Record>, test: Record -> bool, limit: nat)
    ensures |FirstMatching(log, test, limit)| <= |log|
    decreases |log|
  {
    if log != [] {
      MatchingNoLongerThanLog(log[..|log| - 1], test, limit);
    }
  }

  /** A rebase inspects every in-flight record exactly when there are at most 16 more of them than missing versions. */
  lemma InspectsAllExactly(c: CanvasState, base: int, version: int)
    requires LogOk(c) && 0 <= base < version
    ensures Inspected(c, base, version) == OpsOf(AllAfter(c.log, base))
       <==> |AllAfter(c.log, base)| <= version - base + 16
  {
    var limit := version - base + 16;
    IndexLookupIsVersionFilter(c, base, limit);
    var all := FirstMatching(c.log, LaterVersion(base), |c.log| + limit);
    FirstMatchingIsPrefix(c.log, LaterVersion(base), limit, |c.log| + limit);
    FirstMatchingIsPrefix(c.log, LaterVersion(base), |c.log|, |c.log| + limit);
    MatchingNoLongerThanLog(c.log, LaterVersion(base), |c.log| + limit);
    hide FirstMatching;
    assert all == AllAfter(c.log, base);
  }

  /** Filtering a log by a test that only its last part passes. */
  lemma {:induction false} OnlyTheEndMatches(a: seq<Record>, b: seq<Record>, test: Record -> bool, limit: nat)
    requires (forall i :: 0 <= i < |a| ==> !test(a[i])) && forall i :: 0 <= i < |b| ==> test(b[i])
    ensures FirstMatching(a + b, test, limit) == b[..if |b| < limit then |b| else limit]
    decreases |a| + |b|
  {
    if b != [] {
      var n := |b| - 1;
      assert (a + b)[..|a + b| - 1] == a + b[..n];
      OnlyTheEndMatches(a, b[..n], test, limit);
    } else if a != [] {
      assert (a + b)[..|a + b| - 1] == a[..|a| - 1] + b;
      OnlyTheEndMatches(a[..|a| - 1], b, test, limit);
    }
  }

  function FirstFew(ops: seq<Op>): seq<Op> {
    ops[..if |ops| < 17 then |ops| else 17]
  }

  /** After one batch, a rebase from the version before it sees the first seventeen operations of the batch and no more. */
  lemma SeesFirstSeventeen(c: CanvasState, canvasId: string, doc: Doc, ops: seq<Op>, actor: string, now: int)
    requires LogOk(c)
    ensures var v := c.stored.value.version;
            Inspected(Appended(c, canvasId, doc, ops, actor, now), v, v + 1) == FirstFew(ops)
  {
    var v := c.stored.value.version;
    var d := Appended(c, canvasId, doc, ops, actor, now);
    var records := Numbered(c.lastSeq, canvasId, actor, ops, v + 1, now);
    AppendedLogOk(c, canvasId, doc, ops, actor, now);
    IndexLookupIsVersionFilter(d, v, 17);
    forall i | 0 <= i < |records|
      ensures LaterVersion(v)(records[i]) && records[i].op == ops[i]
    {
    }
    OnlyTheEndMatches(c.log, records, LaterVersion(v), 17);
    hide FirstMatching, SeqOfVersion;
    assert d.log == c.log + records;
    assert LimitOf(17) == 17;
  }

  function Moves(k: nat, id: string, x: real, y: real): seq<Op> {
    seq(k, _ => MoveNode(id, x, y, false))
  }

  lemma {:induction false} MovesAreApplied(table: Table, d: Doc, k: nat, id: string, x: real, y: real, who: Stamp)
    requires id in d.nodes && RectOk(d.nodes[id].rect) && CheckCoord(x).Pass? && CheckCoord(y).Pass?
    ensures ApplyAll(table, d, Moves(k, id, x, y), who)
         == Ok(if k == 0 then d else d.(nodes := d.nodes[id := d.nodes[id].(rect := d.nodes[id].rect.(x := x, y := y))]))
  {
    hide ApplyOp;
    if k > 0 {
      MovesAreApplied(table, d, k - 1, id, x, y, who);
      assert Moves(k, id, x, y)[..k - 1] == Moves(k - 1, id, x, y);
      var mid := ApplyAll(table, d, Moves(k - 1, id, x, y), who).value;
      ChangeIsApplied(table, mid, MoveNode(id, x, y, false), who);
      var n := d.nodes[id].(rect := d.nodes[id].rect.(x := x, y := y));
      assert mid.nodes[id := n] == d.nodes[id := n];
    }
  }

  /** Seventeen moves of a node, and then a new title for it. */
  function MovesThenTitle(id: string, x: real, y: real, title: string): seq<Op> {
    Moves(17, id, x, y) + [SetTitle(id, title)]
  }

  lemma TitledByBatch(table: Table, d: Doc, id: string, x: real, y: real, title: string, who: Stamp)
    requires id in d.nodes && RectOk(d.nodes[id].rect) && CheckCoord(x).Pass? && CheckCoord(y).Pass? && 0 < |title| <= MaxTitleLen
    ensures BatchOutcome(table, d, MovesThenTitle(id, x, y, title), who).Ok?
    ensures var e := BatchOutcome(table, d, MovesThenTitle(id, x, y, title), who).value;
            id in e.nodes && e.nodes[id].title == title
  {
    hide ApplyOp;
    var moves := Moves(17, id, x, y);
    MovesAreApplied(table, d, 17, id, x, y, who);
    ApplyAllSnoc(table, d, moves, SetTitle(id, title), who);
    ChangeIsApplied(table, ApplyAll(table, d, moves, who).value, SetTitle(id, title), who);
  }

  lemma TitledAlone(table: Table, d: Doc, id: string, title: string, who: Stamp)
    requires id in d.nodes && 0 < |title| <= MaxTitleLen
    ensures BatchOutcome(table, d, [SetTitle(id, title)], who).Ok?
    ensures var e := BatchOutcome(table, d, [SetTitle(id, title)], who).value; id in e.nodes && e.nodes[id].title == title
  {
    hide ApplyOp;
    ApplyAllOne(table, d, SetTitle(id, title), who);
    ChangeIsApplied(table, d, SetTitle(id, title), who);
  }

  lemma TitleIsBlockedWhenSeen(id: string, x: real, y: real, title: string, other: string)
    ensures MayRebase([SetTitle(id, title)], Moves(17, id, x, y))
    ensures !MayRebase([SetTitle(id, title)], MovesThenTitle(id, x, y, other))
  {
    var all := MovesThenTitle(id, x, y, other);
    OnlyMovesTouch(Moves(17, id, x, y), id, x, y);
    assert all[17] == SetTitle(id, other);
    TouchedMember(all, SetTitle(id, other), TTitle(id));
    assert Blocked([SetTitle(id, title)][0], TouchedBy(all));
  }

  /** An idle instance reads, checks and commits a batch without being disturbed. */
  lemma Undisturbed(table: Table, s: System, i: nat, r: Request, next: Doc) returns (run: seq<System>)
    requires i < |s.instances| && s.instances[i] == Idle && s.canvas.stored.Some? && Acceptable(r)
    requires var now := s.canvas.stored.value;
             Decide(table, now, Inspected(s.canvas, r.base, now.version), r.base, r.ops, r.who) == Ok(next)
    ensures |run| == 4 && run[0] == s && forall k :: 0 < k < 4 ==> Next(table, run[k - 1], run[k])
    ensures run[3] == System(Appended(s.canvas, "", next, r.ops, r.who.actor, r.who.now), s.instances)
    ensures Commit(run[2], run[3], i) && run[2].canvas == s.canvas && run[2].instances[i].request == r
  {
    hide Decide, Inspected, Appended;
    var now := s.canvas.stored.value;
    var seen := Inspected(s.canvas, r.base, now.version);
    var held := s.(instances := s.instances[i := Holding(r, now)]);
    var ready := s.(instances := s.instances[i := Ready(r, now, seen, next)]);
    var done := System(Appended(s.canvas, "", next, r.ops, r.who.actor, r.who.now), s.instances);
    assert held.instances[i := Ready(r, now, seen, next)] == ready.instances;
    assert ready.instances[i := Idle] == s.instances;
    assert Read(s, held, i, r) && Check(table, held, ready, i) && Commit(ready, done, i);
    assert StepOf(table, s, held, i) && StepOf(table, held, ready, i) && StepOf(table, ready, done, i);
    run := [s, held, ready, done];
  }

  predicate Titled(c: CanvasState, id: string, title: string) {
    c.stored.Some? && id in c.stored.value.doc.nodes && c.stored.value.doc.nodes[id].title == title
  }

  /** The first half of the next run: seventeen moves and a title are committed. */
  lemma TitleIsCommitted(table: Table, s: System, i: nat, id: string, x: real, y: real, title: string, who: Stamp)
    returns (run: seq<System>, next: Doc)
    requires LogOk(s.canvas) && i < |s.instances| && s.instances[i] == Idle
    requires id in s.canvas.stored.value.doc.nodes && RectOk(s.canvas.stored.value.doc.nodes[id].rect)
    requires CheckCoord(x).Pass? && CheckCoord(y).Pass? && who.actor != "" && 0 < |title| <= MaxTitleLen
    ensures |run| == 4 && run[0] == s && forall k :: 0 < k < 4 ==> Next(table, run[k - 1], run[k])
    ensures Commit(run[2], run[3], i)
    ensures run[3] == System(Appended(s.canvas, "", next, MovesThenTitle(id, x, y, title), who.actor, who.now), s.instances)
    ensures Titled(run[3].canvas, id, title)
  {
    hide BatchOutcome, MayRebase, Inspected, LogOk, Appended, CheckCoord, RectOk, Next, Commit, MovesThenTitle;
    VersionIsCounted(s.canvas);
    var stored := s.canvas.stored.value;
    var batch := MovesThenTitle(id, x, y, title);
    TitledByBatch(table, stored.doc, id, x, y, title, who);
    next := BatchOutcome(table, stored.doc, batch, who).value;
    NotEmpty(id, x, y, title);
    run := Undisturbed(table, s, i, Request(stored.version, batch, who), next);
    AppendedStores(s.canvas, next, batch, who);
  }

  lemma NotEmpty(id: string, x: real, y: real, title: string)
    ensures MovesThenTitle(id, x, y, title) != [] && FirstFew(MovesThenTitle(id, x, y, title)) == Moves(17, id, x, y)
  {
  }

  /** The second half: a stale title is merged over that batch, of which only the moves are looked at. */
  lemma StaleTitleIsCommitted(table: Table, c: CanvasState, s: System, j: nat, id: string, x: real, y: real, next: Doc,
                              first: string, second: string, who: Stamp) returns (run: seq<System>)
    requires LogOk(c) && s.canvas == Appended(c, "", next, MovesThenTitle(id, x, y, first), who.actor, who.now)
    requires j < |s.instances| && s.instances[j] == Idle && Titled(s.canvas, id, first)
    requires who.actor != "" && 0 < |second| <= MaxTitleLen
    ensures |run| == 4 && run[0] == s && forall k :: 0 < k < 4 ==> Next(table, run[k - 1], run[k])
    ensures Commit(run[2], run[3], j) && run[2].canvas == s.canvas
    ensures run[2].instances[j].request == Request(c.stored.value.version, [SetTitle(id, second)], who)
    ensures Titled(run[3].canvas, id, second)
  {
    hide BatchOutcome, MayRebase, Inspected, LogOk, Appended, Next, MovesThenTitle;
    VersionIsCounted(c);
    AppendedStores(c, next, MovesThenTitle(id, x, y, first), who);
    SeesFirstSeventeen(c, "", next, MovesThenTitle(id, x, y, first), who.actor, who.now);
    NotEmpty(id, x, y, first);
    TitleIsBlockedWhenSeen(id, x, y, second, first);
    TitledAlone(table, next, id, second, who);
    var last := BatchOutcome(table, next, [SetTitle(id, second)], who).value;
    run := Undisturbed(table, s, j, Request(c.stored.value.version, [SetTitle(id, second)], who), last);
    AppendedStores(s.canvas, last, [SetTitle(id, second)], who);
  }

  /**
   * The limit loses writes: from every reachable state with two idle instances and a node, the first can commit
   * seventeen moves and a title for the node, and then the second, still based on the version before, is merged over
   * that batch and replaces the title. Had it seen the whole batch it would have been refused.
   */
  lemma UnseenTitleIsOverwritten(table: Table, s: System, i: nat, j: nat, id: string, x: real, y: real, first: string,
                                 second: string, who: Stamp) returns (run: seq<System>)
    requires Inv(table, s) && i < |s.instances| && j < |s.instances| && s.instances[i] == s.instances[j] == Idle
    requires id in s.canvas.stored.value.doc.nodes && RectOk(s.canvas.stored.value.doc.nodes[id].rect)
    requires CheckCoord(x).Pass? && CheckCoord(y).Pass? && who.actor != ""
    requires 0 < |first| <= MaxTitleLen && 0 < |second| <= MaxTitleLen
    ensures |run| == 7 && run[0] == s && forall k :: 0 < k < 7 ==> Next(table, run[k - 1], run[k])
    ensures Commit(run[2], run[3], i) && Titled(run[3].canvas, id, first)
    ensures Commit(run[5], run[6], j) && Titled(run[6].canvas, id, second)
    ensures run[5].instances[j].request == Request(s.canvas.stored.value.version, [SetTitle(id, second)], who)
    ensures !MayRebase([SetTitle(id, second)], OpsOf(AllAfter(run[5].canvas.log, s.canvas.stored.value.version)))
  {
    hide MayRebase, LogOk, Replays, BatchesNonEmpty, AllAfter, Appended, InstanceOk, CheckCoord, RectOk, Next, Commit, Titled,
      MovesThenTitle;
    var a, next := TitleIsCommitted(table, s, i, id, x, y, first, who);
    var b := StaleTitleIsCommitted(table, s.canvas, a[3], j, id, x, y, next, first, second, who);
    AllAfterAppended(s.canvas, next, MovesThenTitle(id, x, y, first), who);
    TitleIsBlockedWhenSeen(id, x, y, second, first);
    run := [s, a[1], a[2], a[3], b[1], b[2], b[3]];
  }

  lemma VersionIsCounted(c: CanvasState)
    requires LogOk(c)
    ensures c.stored.Some? && c.stored.value.version >= 0
  {
  }

  lemma AppendedStores(c: CanvasState, next: Doc, ops: seq<Op>, who: Stamp)
    requires c.stored.Some?
    ensures var d := Appended(c, "", next, ops, who.actor, who.now);
            d.stored.Some? && d.stored.value.doc == next && d.stored.value.version == c.stored.value.version + 1
  {
  }

  lemma AllAfterAppended(c: CanvasState, next: Doc, ops: seq<Op>, who: Stamp)
    requires LogOk(c)
    ensures OpsOf(AllAfter(Appended(c, "", next, ops, who.actor, who.now).log, c.stored.value.version)) == ops
  {
    var v := c.stored.value.version;
    var records := Numbered(c.lastSeq, "", who.actor, ops, v + 1, who.now);
    forall i | 0 <= i < |records|
      ensures LaterVersion(v)(records[i]) && records[i].op == ops[i]
    {
    }
    OnlyTheEndMatches(c.log, records, LaterVersion(v), |c.log + records|);
    hide FirstMatching;
    assert Appended(c, "", next, ops, who.actor, who.now).log == c.log + records;
  }

  lemma OnlyMovesTouch(moves: seq<Op>, id: string, x: real, y: real)
    requires forall i :: 0 <= i < |moves| ==> moves[i] == MoveNode(id, x, y, false)
    ensures TouchedBy(moves) <= {TGeometry(id)}
  {
    forall t | t in TouchedBy(moves)
      ensures t == TGeometry(id)
    {
      var op :| op in moves && t in Touches(op);
    }
  }

  // ---------------------------------------------------------------- the audit

  lemma {:induction false} AllMatch(log: seq<Record>, test: Record -> bool, limit: nat)
    requires |log| <= limit && forall i :: 0 <= i < |log| ==> test(log[i])
    ensures FirstMatching(log, test, limit) == log
    decreases |log|
  {
    if log != [] {
      AllMatch(log[..|log| - 1], test, limit);
    }
  }

  lemma SameContentsNoDifference(a: Doc, versionA: int, b: Doc, versionB: int)
    requires SameContents(b, a)
    ensures NoDifference(a, versionA, b, versionB) <==> versionA == versionB
  {
    SameSize(b.edges, a.edges);
    forall k | k in a.edges
      ensures k in b.edges && EdgesMatch(a.edges[k], b.edges[k])
    {
      assert SameLink(b.edges[k], a.edges[k]);
    }
  }

  /** Each committed batch held a single operation. */
  ghost predicate OneOpPerBatch(c: CanvasState) {
    forall j :: 0 <= j < |c.index| ==> c.index[j].seqNo == j + 1
  }

  lemma {:induction false} IndexGrows(c: CanvasState, j: nat)
    requires BatchesNonEmpty(c) && j < |c.index|
    ensures c.index[j].seqNo >= j + 1
  {
    assert LengthBefore(c.index, j) < c.index[j].seqNo;
    if j > 0 {
      IndexGrows(c, j - 1);
    }
  }

  lemma {:induction false} IndexTight(c: CanvasState, j: nat)
    requires BatchesNonEmpty(c) && j < |c.index| && c.index[|c.index| - 1].seqNo == |c.index|
    ensures c.index[j].seqNo == j + 1
    decreases |c.index| - j
  {
    IndexGrows(c, j);
    if j < |c.index| - 1 {
      IndexTight(c, j + 1);
      assert LengthBefore(c.index, j + 1) < c.index[j + 1].seqNo;
    }
  }

  lemma VersionCountsOpsExactly(c: CanvasState)
    requires LogOk(c) && BatchesNonEmpty(c)
    ensures c.stored.value.version == |c.log| <==> OneOpPerBatch(c)
  {
    assert |c.index| == 0 ==> |c.log| == 0 by {
      assert |c.log| > 0 ==> 1 <= c.log[0].version <= |c.index|;
    }
    if |c.log| == |c.index| {
      forall j | 0 <= j < |c.index|
        ensures c.index[j].seqNo == j + 1
      {
        IndexTight(c, j);
      }
    }
  }

  /**
   * The audit replays every reachable canvas to the stored contents, yet reports it consistent
   * exactly when each batch held one operation: it also compares versions, and a replay counts one
   * version per operation.
   */
  lemma AuditVerdict(table: Table, c: CanvasState)
    requires Faithful(table, c) && |c.log| <= 1_000_000
    ensures AuditOf(table, c) == if OneOpPerBatch(c) then Consistent else Inconsistent
  {
    hide ApplyAll, BatchesNonEmpty, NoDifference, SameContents, OneOpPerBatch;
    var s := c.stored.value;
    forall i | 0 <= i < |c.log|
      ensures LaterSeq(0)(c.log[i])
    {
      assert c.log[i].seqNo == i + 1;
    }
    AllMatch(c.log, LaterSeq(0), LimitOf(1_000_000));
    var replayer := Stamp("replay", s.updatedAt);
    ReplayReproduces(table, OpsOf(c.log), Replayer, s.doc, replayer);
    var again := ApplyAll(table, ReplayStart(s.doc.settings), OpsOf(c.log), replayer).value;
    SameContentsNoDifference(s.doc, s.version, again, |OpsOf(c.log)|);
    VersionCountsOpsExactly(c);
  }
}
