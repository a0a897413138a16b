/** What a finished run tells: which steps ran, which were skipped, in what order, and what the verdict means. */
module Reports {
  import opened Outcomes
  import opened Ordering
  import opened Digraphs
  import opened Documents
  import opened Operations
  import opened Metering
  import opened Plans
  import opened Execution
  import opened StepOrder
  import opened Compiling

  ghost predicate DistinctSteps(steps: seq<Step>) {
    forall i, j :: 0 <= i < j < |steps| ==> steps[i].id != steps[j].id
  }

  /** Step `i` waits for step `j`. */
  ghost predicate Waits(steps: seq<Step>, i: int, j: int) {
    0 <= i < |steps| && 0 <= j < |steps| && steps[j].id in steps[i].dependsOn
  }

  /** Every step comes after the steps of the run it waits for. */
  ghost predicate RunsInOrder(steps: seq<Step>) {
    forall i, j :: Waits(steps, i, j) ==> j < i
  }

  ghost function WaitGraph(steps: seq<Step>): Digraph<int> {
    set i, j | 0 <= i < |steps| && 0 <= j < |steps| && Waits(steps, i, j) :: (j, i)
  }

  ghost function Final(w: World, max: int, start: seq<Step>): (f: seq<Step>)
    ensures |f| == |start|
  {
    After(w, max, start, |start|)
  }

  /** A step is settled once, when its turn comes. */
  lemma {:induction false} SettledOnce(w: World, max: int, start: seq<Step>, i: nat, n: nat)
    requires i < n <= |start|
    ensures After(w, max, start, n)[i] == Visit(w, max, After(w, max, start, i), i)
    decreases n
  {
    hide Visit;
    if n > i + 1 {
      SettledOnce(w, max, start, i, n - 1);
    }
  }

  lemma DepsAreWaits(steps: seq<Step>, i: nat)
    requires i < |steps|
    ensures DepsSatisfied(steps, steps[i].dependsOn) <==> forall j :: Waits(steps, i, j) ==> steps[j].status == Succeeded
  {
    if forall j :: Waits(steps, i, j) ==> steps[j].status == Succeeded {
      forall k, j | 0 <= k < |steps[i].dependsOn| && 0 <= j < |steps| && steps[j].id == steps[i].dependsOn[k]
        ensures steps[j].status == Succeeded
      {
        assert Waits(steps, i, j);
      }
    }
    if DepsSatisfied(steps, steps[i].dependsOn) {
      forall j | Waits(steps, i, j)
        ensures steps[j].status == Succeeded
      {
        var k :| 0 <= k < |steps[i].dependsOn| && steps[i].dependsOn[k] == steps[j].id;
      }
    }
  }

  /** A fresh run: nothing has happened to any step yet. */
  ghost predicate Fresh(start: seq<Step>) {
    DistinctSteps(start) && forall i :: 0 <= i < |start| ==> start[i].status == Queued && start[i].attempts == [] && start[i].error == None
  }

  /**
   * In any plan order: a step is left out exactly when some step it waits for has its turn later, or did not succeed;
   * otherwise it is tried, and succeeds or fails as its attempts do.
   */
  lemma StepReport(w: World, max: int, start: seq<Step>, i: nat)
    requires Fresh(start) && i < |start| && NeverCanceled(w, max, start)
    ensures var f := Final(w, max, start);
            var p := Play(w, max, start[i].id);
            && f[i].id == start[i].id
            && (f[i].status == Skipped <==> exists j :: Waits(start, i, j) && (j >= i || f[j].status != Succeeded))
            && (f[i].status != Skipped ==> f[i].attempts == p.attempts && (f[i].status == Succeeded <==> p.end.Done?)
                                           && (f[i].status == Failed <==> p.end.Broken?) && (f[i].status == Failed || f[i].status == Succeeded))
            && (f[i].status == Skipped ==> f[i].attempts == [])
  {
    hide Play, Visit, DepsSatisfied, After, CancelsAt;
    var n := |start|;
    var f, s := Final(w, max, start), After(w, max, start, i);
    SettledOnce(w, max, start, i, n);
    NamesThroughout(w, max, start, i);
    NextStep(w, max, start, i);
    VisitCases(w, max, s, i);
    DepsAreWaits(s, i);
    forall j | Waits(start, i, j)
      ensures Waits(s, i, j)
      ensures s[j].status == Succeeded <==> j < i && f[j].status == Succeeded
    {
      if j < i {
        SettledOnce(w, max, start, j, i);
        SettledOnce(w, max, start, j, n);
      } else {
        assert s[j] == start[j];
      }
    }
    forall j | Waits(s, i, j)
      ensures Waits(start, i, j)
    {
    }
  }

  lemma VisitCases(w: World, max: int, s: seq<Step>, i: nat)
    requires i < |s|
    ensures var v := Visit(w, max, s, i);
            var p := Play(w, max, s[i].id);
            && v.id == s[i].id
            && (if DepsSatisfied(s, s[i].dependsOn) then
                  v.attempts == p.attempts
                  && v.status == (match p.end case Done => Succeeded case Broken(_) => Failed case Stopped => Canceled)
                else v == s[i].(status := Skipped))
  {
    hide Play, DepsSatisfied;
  }

  // ---------------------------------------------------------------- plans in dependency order

  /** Some step that a step waits for, directly or through others, failed. */
  ghost predicate AncestorFailed(w: World, max: int, start: seq<Step>, i: nat) {
    exists a :: 0 <= a < |start| && a != i && Reaches(WaitGraph(start), a, i) && Final(w, max, start)[a].status == Failed
  }

  /** In a plan in dependency order, a step is skipped exactly when some step before it in the chain failed. */
  lemma {:induction false} SkippedExactly(w: World, max: int, start: seq<Step>, i: nat)
    requires Fresh(start) && RunsInOrder(start) && NeverCanceled(w, max, start) && i < |start|
    ensures Final(w, max, start)[i].status == Skipped <==> AncestorFailed(w, max, start, i)
    decreases i
  {
    hide Final, NeverCanceled, Fresh, WaitGraph, Reaches;
    var f, g := Final(w, max, start), WaitGraph(start);
    StepReport(w, max, start, i);
    if f[i].status == Skipped {
      var j :| Waits(start, i, j) && f[j].status != Succeeded;
      WaitsIsArc(start, i, j);
      StepReport(w, max, start, j);
      ReachesArc(g, j, i);
      if f[j].status != Failed {
        SkippedExactly(w, max, start, j);
        var a :| 0 <= a < |start| && a != j && Reaches(g, a, j) && f[a].status == Failed;
        ReachesTrans(g, a, j, i);
        assert a != i;
      }
    }
    if AncestorFailed(w, max, start, i) {
      var a :| 0 <= a < |start| && a != i && Reaches(g, a, i) && f[a].status == Failed;
      var j := LastStep(g, a, i);
      ArcIsWaits(start, i, j);
      if j != a {
        SkippedExactly(w, max, start, j);
      }
      assert f[j].status != Succeeded;
    }
  }

  lemma WaitsIsArc(start: seq<Step>, i: int, j: int)
    requires Waits(start, i, j)
    ensures (j, i) in WaitGraph(start)
  {
  }

  lemma ArcIsWaits(start: seq<Step>, i: int, j: int)
    requires (j, i) in WaitGraph(start)
    ensures Waits(start, i, j)
  {
  }

  lemma LastStep(g: Digraph<int>, a: int, b: int) returns (c: int)
    requires Reaches(g, a, b) && a != b
    ensures (c, b) in g && Reaches(g, a, c)
  {
    var p :| PathBetween(g, p, a, b);
    var n := |p| - 1;
    c := p[n - 1];
    SubpathReaches(g, p, 0, n - 1);
    assert (p[n - 1], p[n]) in g;
  }

  /** What the verdict of a run means when its plan is in dependency order. */
  lemma VerdictMeans(w: World, max: int, start: seq<Step>)
    requires Fresh(start) && RunsInOrder(start) && NeverCanceled(w, max, start)
    ensures var f := Final(w, max, start);
            && (forall i :: 0 <= i < |f| ==> f[i].status in {Succeeded, Failed, Skipped})
            && (Verdict(f) == RunSucceeded <==> forall i :: 0 <= i < |f| ==> f[i].status == Succeeded)
            && (Verdict(f) == RunFailed <==> f != [] && forall i :: 0 <= i < |f| ==> f[i].status != Succeeded)
            && Verdict(f) in {RunSucceeded, RunFailed, RunPartial}
  {
    hide Final, NeverCanceled, Fresh, Waits;
    var f := Final(w, max, start);
    CountIsZero(f, Failed);
    CountIsZero(f, Succeeded);
    forall i | 0 <= i < |f|
      ensures f[i].status in {Succeeded, Failed, Skipped}
      ensures f[i].status == Skipped ==> exists a :: 0 <= a < |f| && f[a].status == Failed
    {
      StepReport(w, max, start, i);
      SkippedExactly(w, max, start, i);
    }
  }

  // ---------------------------------------------------------------- the order of events

  lemma {:induction false} TryEvents(w: World, max: int, id: string, k: nat)
    ensures var t := Tries(w, max, id, k);
            && (forall e :: e in t.events ==> e == Retried(id) || e == StepDone(id))
            && (StepDone(id) in t.events <==> t.end.Done?)
    decreases if k < max then max - k else 0
  {
    match w.reply(id, k)
    case Answer(_, _) =>
    case Refusal(f) =>
      if Backoff(w, max, k, f) > 0 && !w.canceledInPause(id, k) {
        TryEvents(w, max, id, k + 1);
      }
  }

  lemma TurnEvents(w: World, max: int, s: seq<Step>, i: nat)
    requires i < |s|
    ensures var ev := VisitEvents(w, max, s, i);
            && (ev != [] <==> DepsSatisfied(s, s[i].dependsOn))
            && (ev != [] ==> ev[0] == Started(s[i].id))
            && (forall q, x :: 0 < q < |ev| ==> ev[q] != Started(x))
            && (forall x :: StepDone(x) in ev <==> x == s[i].id && ev != [] && Play(w, max, s[i].id).end.Done?)
  {
    hide DepsSatisfied, Tries;
    var id := s[i].id;
    PlayIsTries(w, max, id);
    TryEvents(w, max, id, 1);
    var ev := VisitEvents(w, max, s, i);
    forall q, x | 0 < q < |ev|
      ensures ev[q] != Started(x)
    {
      assert ev[q] in Tries(w, max, id, 1).events || ev[q] == StepFailed(id);
    }
  }

  /** The events tell of exactly the steps that succeeded so far. */
  lemma {:induction false} DoneEvents(w: World, max: int, start: seq<Step>, n: nat, x: string)
    requires Fresh(start) && n <= |start|
    ensures StepDone(x) in EventsAfter(w, max, start, n)
       <==> exists j :: 0 <= j < n && start[j].id == x && After(w, max, start, n)[j].status == Succeeded
  {
    hide Visit, VisitEvents, DepsSatisfied, Play, CancelsAt;
    if n > 0 {
      var s, t := After(w, max, start, n - 1), After(w, max, start, n);
      DoneEvents(w, max, start, n - 1, x);
      NextStep(w, max, start, n - 1);
      TurnEvents(w, max, s, n - 1);
      VisitCases(w, max, s, n - 1);
      assert forall j :: 0 <= j < n - 1 ==> t[j] == s[j];
      if exists j :: 0 <= j < n - 1 && start[j].id == x && s[j].status == Succeeded {
        var j :| 0 <= j < n - 1 && start[j].id == x && s[j].status == Succeeded;
        assert t[j].status == Succeeded;
      }
      if StepDone(x) in VisitEvents(w, max, s, n - 1) {
        assert t[n - 1].status == Succeeded && start[n - 1].id == x;
      }
    }
  }

  /**
   * Whatever the plan order, and whether or not the run is canceled, a step is started only after every step of the run
   * it waits for has reported success.
   */
  lemma {:induction false} StartedAfterSources(w: World, max: int, start: seq<Step>, n: nat, i: nat, j: nat, q: nat)
    requires Fresh(start) && n <= |start| && Waits(start, i, j)
    requires q < |EventsAfter(w, max, start, n)| && EventsAfter(w, max, start, n)[q] == Started(start[i].id)
    ensures StepDone(start[j].id) in EventsAfter(w, max, start, n)[..q]
  {
    hide Visit, VisitEvents, DepsSatisfied, Play, CancelsAt;
    if n > 0 {
      var s := After(w, max, start, n - 1);
      var before := EventsAfter(w, max, start, n - 1);
      NextStep(w, max, start, n - 1);
      TurnEvents(w, max, s, n - 1);
      if q < |before| {
        StartedAfterSources(w, max, start, n - 1, i, j, q);
        assert EventsAfter(w, max, start, n)[..q] == before[..q];
      } else {
        assert EventsAfter(w, max, start, n)[q] == VisitEvents(w, max, s, n - 1)[q - |before|];
        assert q == |before| && start[i].id == start[n - 1].id;
        assert EventsAfter(w, max, start, n)[..q] == before;
        DepsAreWaits(s, n - 1);
        NamesThroughout(w, max, start, n - 1);
        assert Waits(s, n - 1, j);
        DoneEvents(w, max, start, n - 1, start[j].id);
        assert j < n - 1;
      }
    }
  }

  /** The events of a canceled run are the first ones of the run it would have been. */
  lemma CanceledEventsComeFirst(w: World, max: int, start: seq<Step>, i: nat)
    requires i < |start| && CancelsAt(w, max, start, i)
    ensures CanceledEvents(w, max, start, i) <= EventsAfter(w, max, start, i + 1)
  {
    hide Play, DepsSatisfied, After;
    NextStep(w, max, start, i);
  }

  // ---------------------------------------------------------------- plans out of order

  /** A world in which every call succeeds. */
  const AllIsWell := World(_ => true, _ => None, (_, _) => Answer(NoUsage, None), _ => Pricing(0, 0, 0, 0, 0),
                           (_, _) => 0, false, (_, _) => false, _ => false)

  ghost predicate SuccessIsHonest(max: int, start: seq<Step>) {
    forall w: World :: NeverCanceled(w, max, start) && Verdict(Final(w, max, start)) == RunSucceeded ==>
      forall i :: 0 <= i < |start| ==> Final(w, max, start)[i].status == Succeeded
  }

  lemma WellEnds(max: int, start: seq<Step>)
    requires Fresh(start)
    ensures forall id :: Play(AllIsWell, max, id).end.Done?
    ensures NeverCanceled(AllIsWell, max, start)
  {
    forall id
      ensures Play(AllIsWell, max, id).end.Done?
    {
      PlayIsTries(AllIsWell, max, id);
    }
    hide Play;
    forall i | 0 <= i < |start|
      ensures !CancelsAt(AllIsWell, max, start, i)
    {
      NextStep(AllIsWell, max, start, i);
    }
  }

  /** A run reported as succeeded means every step succeeded, in every world, exactly when the plan is in dependency order. */
  lemma SuccessIsHonestExactly(max: int, start: seq<Step>)
    requires Fresh(start)
    ensures SuccessIsHonest(max, start) <==> RunsInOrder(start)
  {
    hide Final, NeverCanceled, Fresh, Play, Waits;
    if RunsInOrder(start) {
      forall w: World | NeverCanceled(w, max, start) && Verdict(Final(w, max, start)) == RunSucceeded
        ensures forall i :: 0 <= i < |start| ==> Final(w, max, start)[i].status == Succeeded
      {
        VerdictMeans(w, max, start);
      }
    } else {
      var i, j :| Waits(start, i, j) && j >= i;
      WaitsInRange(start, i, j);
      var f := Final(AllIsWell, max, start);
      WellEnds(max, start);
      StepReport(AllIsWell, max, start, i);
      assert f[i].status == Skipped;
      forall k | 0 <= k < |start|
        ensures f[k].status != Failed
      {
        StepReport(AllIsWell, max, start, k);
      }
      CountIsZero(f, Failed);
      assert Verdict(f) == RunSucceeded;
    }
  }

  lemma WaitsInRange(start: seq<Step>, i: int, j: int)
    requires Waits(start, i, j)
    ensures 0 <= i < |start| && 0 <= j < |start|
  {
  }

  // ---------------------------------------------------------------- runs of compiled plans

  lemma InitialIsFresh(d: Doc, plan: seq<PlanStep>)
    requires DistinctPlan(plan)
    ensures Fresh(Initial(d, plan))
  {
    forall i | 0 <= i < |plan|
      ensures Initial(d, plan)[i].status == Queued && Initial(d, plan)[i].attempts == [] && Initial(d, plan)[i].error == None
    {
      InitialStepIs(d, plan, plan[i]);
    }
  }

  lemma MadeIsDistinct(d: Doc, credentials: Credentials, plan: seq<PlanStep>)
    requires Made(d, credentials, plan) && Collectable(d)
    ensures DistinctPlan(plan)
  {
    hide StepFor;
    CollectedStepsAreFree(d, credentials, plan);
    forall i, j | 0 <= i < j < |plan|
      ensures plan[i].id != plan[j].id
    {
      assert Ids(plan)[i] != Ids(plan)[j];
    }
  }

  lemma {:induction false} ExecutableSourcesAre(d: Doc, es: seq<Edge>, u: string)
    requires Collectable(d)
    ensures u in ExecutableSources(d, es) <==> IsStepNode(d, u) && exists i :: 0 <= i < |es| && es[i].from.nodeId == u
  {
    if es != [] {
      var n := |es| - 1;
      ExecutableSourcesAre(d, es[..n], u);
      if u in ExecutableSources(d, es[..n]) {
        var i :| 0 <= i < n && es[..n][i].from.nodeId == u;
        assert es[i].from.nodeId == u;
      }
      if i :| 0 <= i < |es| && es[i].from.nodeId == u {
        assert i < n ==> es[..n][i].from.nodeId == u;
      }
    }
  }

  /** A node depends on exactly the executable nodes with an edge into it. */
  lemma DependsOnSources(d: Doc, x: string, u: string)
    requires Collectable(d)
    ensures u in DependsOnNodes(d, x) <==> IsStepNode(d, u) && (u, x) in FlowGraph(d.edges)
  {
    hide UpstreamOf, ExecutableSources, Collectable;
    var es := UpstreamOf(d.edges, x);
    ExecutableSourcesAre(d, es, u);
    if i :| 0 <= i < |es| && es[i].from.nodeId == u {
      var k := UpstreamIsIncoming(d.edges, x, i);
    }
    if (u, x) in FlowGraph(d.edges) {
      var k :| k in d.edges && d.edges[k].from.nodeId == u && d.edges[k].to.nodeId == x;
      var i := IncomingIsUpstream(d.edges, x, k);
    }
  }

  lemma {:induction false} LinkedAre(plan: seq<PlanStep>, self: string, nodes: seq<string>, j: nat)
    requires DistinctPlan(plan) && j < |plan|
    ensures plan[j].id in Linked(plan, self, nodes) <==> plan[j].id != self && plan[j].nodeId in nodes
  {
    if nodes != [] {
      var n := |nodes| - 1;
      LinkedAre(plan, self, nodes[..n], j);
      assert nodes == nodes[..n] + [nodes[n]];
      assert PlanHas(plan, plan[j].nodeId) && IndexOfNode(plan, plan[j].nodeId) == j;
    }
  }

  /** In a run of made steps, a step waits for exactly the steps of the nodes that feed its node. */
  lemma WaitsAreEdges(d: Doc, credentials: Credentials, plan: seq<PlanStep>, i: int, j: int)
    requires Made(d, credentials, plan) && Collectable(d) && 0 <= i < |plan| && 0 <= j < |plan|
    ensures Waits(Initial(d, plan), i, j) <==> (plan[j].nodeId, plan[i].nodeId) in FlowGraph(d.edges)
  {
    hide StepFor, Linked, DependsOnNodes, Reaches;
    MadeIsDistinct(d, credentials, plan);
    CollectedStepsAreFree(d, credentials, plan);
    DependsOnSources(d, plan[i].nodeId, plan[j].nodeId);
    LinkedAre(plan, plan[i].id, DependsOnNodes(d, plan[i].nodeId), j);
    NoSelfArc(d, plan[i].nodeId);
    assert plan[i].dependsOn == [];
  }

  /** A plan holding every source of its nodes runs in order exactly when it is in dependency order. */
  lemma RunsInOrderExactly(d: Doc, credentials: Credentials, plan: seq<PlanStep>)
    requires Made(d, credentials, plan) && Collectable(d)
    requires forall u, x :: x in NodesOf(plan) && IsStepNode(d, u) && (u, x) in FlowGraph(d.edges) ==> u in NodesOf(plan)
    ensures RunsInOrder(Initial(d, plan)) <==> DependencyOrder(d, plan)
  {
    hide StepFor, FlowGraph, Initial, Collectable;
    var start := Initial(d, plan);
    if RunsInOrder(start) {
      forall i, u | 0 <= i < |plan| && IsStepNode(d, u) && (u, plan[i].nodeId) in FlowGraph(d.edges)
        ensures u in NodesOf(plan[..i])
      {
        assert plan[i].nodeId in NodesOf(plan);
        var s :| s in plan && s.nodeId == u;
        var j :| 0 <= j < |plan| && plan[j] == s;
        WaitsAreEdges(d, credentials, plan, i, j);
        assert plan[..i][j] == s;
      }
    }
    if DependencyOrder(d, plan) {
      forall i, j | Waits(start, i, j)
        ensures j < i
      {
        InitialSize(d, plan);
        WaitsAreEdges(d, credentials, plan, i, j);
        var s :| s in plan[..i] && s.nodeId == plan[j].nodeId;
        var k :| 0 <= k < i && plan[..i][k] == s;
        assert plan[k].nodeId == plan[j].nodeId;
      }
    }
  }

  lemma InitialSize(d: Doc, plan: seq<PlanStep>)
    ensures |Initial(d, plan)| == |plan|
  {
  }

  /**
   * A run of a compiled plan can be trusted when it reports success exactly when every edge between needed executable
   * nodes goes up in ID order: the order of the finished plan ignores the edges.
   */
  lemma CompiledSuccessIsHonestExactly(d: Doc, credentials: Credentials, targets: seq<string>,
                                       plan: seq<PlanStep>, max: int)
    requires Collectable(d) && Compiled(d, credentials, targets, plan)
    ensures SuccessIsHonest(max, Initial(d, plan))
       <==> forall u, x :: u in Needed(d, targets) && x in Needed(d, targets) && (u, x) in FlowGraph(d.edges) ==> Leq(u, x)
  {
    hide StepFor, Needed, Made, SortedElements, Collectable, FlowGraph, SuccessIsHonest, RunsInOrder,
      DependencyOrder, IsStepNode, Initial, Fresh, Accepts;
    MadeIsDistinct(d, credentials, plan);
    InitialIsFresh(d, plan);
    SuccessIsHonestExactly(max, Initial(d, plan));
    NodesAreSequence(plan, Needed(d, targets));
    forall u, x | x in NodesOf(plan) && IsStepNode(d, u) && (u, x) in FlowGraph(d.edges)
      ensures u in NodesOf(plan)
    {
      SourceIsNeeded(d, targets, u, x);
    }
    RunsInOrderExactly(d, credentials, plan);
    FinishedPlanIsOrderedExactly(d, credentials, targets, plan);
  }

  lemma NodesAreSequence(plan: seq<PlanStep>, needed: set<string>)
    requires NodeSequence(plan) == SortedElements(needed)
    ensures NodesOf(plan) == needed
  {
    hide SortedElements;
    var ns := NodeSequence(plan);
    forall x
      ensures x in NodesOf(plan) <==> x in needed
    {
      assert x in needed <==> x in ns;
      if x in ns {
        var i :| 0 <= i < |ns| && ns[i] == x;
        assert plan[i] in plan;
      }
      if x in NodesOf(plan) {
        var s :| s in plan && s.nodeId == x;
        var i :| 0 <= i < |plan| && plan[i] == s;
        assert ns[i] == x;
      }
    }
  }

  // ---------------------------------------------------------------- cancellation and cost

  /** A run canceled at a step keeps what was decided before it, and everything else, skipped steps included, is canceled. */
  lemma CanceledRunIsSettled(w: World, max: int, start: seq<Step>, i: nat)
    requires Fresh(start) && FirstCancel(w, max, start, i)
    ensures var s, c := After(w, max, start, i), CanceledSteps(w, max, start, i);
            && |c| == |start| && (forall k :: 0 <= k < |c| ==> Terminal(c[k].status) && c[k].status != Skipped)
            && (forall k :: 0 <= k < i ==> c[k] == if s[k].status == Skipped then s[k].(status := Canceled) else s[k])
            && (forall k :: i < k < |c| ==> c[k] == start[k].(status := Canceled))
            && c[i].status == if w.resolves(start[i].id) then Canceled else Failed
  {
    hide Visit, Play, After, CancelsAt;
    var s := After(w, max, start, i);
    NamesThroughout(w, max, start, i);
    forall k | 0 <= k < i
      ensures s[k].status in {Succeeded, Failed, Skipped}
    {
      SettledOnce(w, max, start, k, i);
      NextStep(w, max, start, k);
      VisitCases(w, max, After(w, max, start, k), k);
    }
  }

  function AllAttempts(steps: seq<Step>): seq<Attempt> {
    if steps == [] then [] else AllAttempts(steps[..|steps| - 1]) + steps[|steps| - 1].attempts
  }

  function CostOf(attempts: seq<Attempt>): int {
    if attempts == [] then 0 else CostOf(attempts[..|attempts| - 1]) + attempts[|attempts| - 1].usage.cost
  }

  lemma {:induction false} CostOfAppend(a: seq<Attempt>, b: seq<Attempt>)
    ensures CostOf(a + b) == CostOf(a) + AttemptUsage(b).cost
  {
    if b == [] {
      assert a + b == a;
    } else {
      var n := |b| - 1;
      CostOfAppend(a, b[..n]);
      assert (a + b)[..|a + b| - 1] == a + b[..n];
    }
  }

  /** A run costs exactly what its attempts cost, taken one by one. */
  lemma {:induction false} CostIsExactSum(steps: seq<Step>)
    ensures TotalUsage(steps).cost == CostOf(AllAttempts(steps))
  {
    if steps != [] {
      var n := |steps| - 1;
      CostIsExactSum(steps[..n]);
      CostOfAppend(AllAttempts(steps[..n]), steps[n].attempts);
    }
  }

  /** Only the attempt that succeeded is charged: the quantities the provider reported, at the price of the step's channel. */
  lemma {:induction false} AttemptsArePriced(w: World, max: int, id: string, k: nat, i: nat)
    requires i < |Tries(w, max, id, k).attempts|
    ensures var a := Tries(w, max, id, k).attempts[i];
            if a.status == Succeeded then
              && w.reply(id, k + i).Answer?
              && var u := w.reply(id, k + i).usage;
                 a.usage == Usage(u.textIn, u.textOut, u.images, u.videoMillis, u.audioMillis, ComputeCost(w.pricing(id), u))
            else a.usage == NoUsage
    decreases if k < max then max - k else 0
  {
    hide ComputeCost;
    if w.reply(id, k).Refusal? && i > 0 {
      AttemptsArePriced(w, max, id, k + 1, i - 1);
    }
  }
}
