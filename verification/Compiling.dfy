/** Compiling a plan: collection, the topological sort, the inputs; and the order the finished plan really has. */
module Compiling {
  import opened Outcomes
  import opened Ordering
  import opened Digraphs
  import opened Documents
  import opened Schemas
  import opened Operations
  import opened WellFormed
  import opened Plans
  import opened Inputs
  import opened StepOrder

  /** The collected steps carry no dependencies, so the sort always succeeds and puts them in ID order. */
  lemma CollectedStepsAreFree(d: Doc, credentials: Credentials, steps: seq<PlanStep>)
    requires Made(d, credentials, steps) && Collectable(d)
    ensures Distinct(Ids(steps)) && DependsGraph(steps) == {} && Acyclic(DependsGraph(steps))
    ensures forall i :: 0 <= i < |steps| ==> steps[i].id == StepId(steps[i].nodeId) && steps[i].dependsOn == []
  {
    hide StepFor;
    forall i | 0 <= i < |steps|
      ensures steps[i].id == StepId(steps[i].nodeId) && steps[i].dependsOn == []
    {
      StepForNames(d.nodes[steps[i].nodeId], credentials);
    }
    forall i, j | 0 <= i < j < |steps|
      ensures Ids(steps)[i] != Ids(steps)[j]
    {
      if steps[i].id == steps[j].id {
        StepIdInjective(steps[i].nodeId, steps[j].nodeId);
      }
    }
    RankMeansAcyclic(DependsGraph(steps), map[]);
  }

  lemma {:induction false} NoLastDependsOn(steps: seq<PlanStep>, nodeId: string)
    requires forall i :: 0 <= i < |steps| ==> steps[i].dependsOn == []
    ensures LastDependsOn(steps, nodeId, []) == []
  {
    if steps != [] {
      NoLastDependsOn(steps[..|steps| - 1], nodeId);
    }
  }

  /** Sorting rearranges the collected steps and changes none of them. */
  lemma SortedStepsAreMade(d: Doc, credentials: Credentials, steps: seq<PlanStep>, out: seq<PlanStep>)
    requires Made(d, credentials, steps) && Collectable(d)
    requires multiset(Ids(out)) == multiset(Ids(steps)) && forall i :: 0 <= i < |out| ==> FromInput(steps, out[i])
    ensures Made(d, credentials, out) && NodesOf(out) == NodesOf(steps)
  {
    hide StepFor, LastDependsOn;
    CollectedStepsAreFree(d, credentials, steps);
    forall i | 0 <= i < |out|
      ensures out[i] in steps
    {
      assert FromInput(steps, out[i]);
      var s :| s in steps && out[i] == s.(dependsOn := LastDependsOn(steps, s.nodeId, s.dependsOn));
      NoLastDependsOn(steps, s.nodeId);
    }
    SameIdsSameSteps(steps, out);
  }

  lemma SameIdsSameSteps(steps: seq<PlanStep>, out: seq<PlanStep>)
    requires Distinct(Ids(steps)) && multiset(Ids(out)) == multiset(Ids(steps))
    requires forall i :: 0 <= i < |steps| ==> steps[i].id == StepId(steps[i].nodeId)
    requires forall i :: 0 <= i < |out| ==> out[i] in steps
    ensures NodesOf(out) == NodesOf(steps)
    ensures forall i, j :: 0 <= i < j < |out| ==> out[i].nodeId != out[j].nodeId
  {
    var a, b := Ids(steps), Ids(out);
    forall i, j | 0 <= i < j < |out|
      ensures out[i].nodeId != out[j].nodeId
    {
      DistinctCounts(a, b[i]);
      if out[i].nodeId == out[j].nodeId {
        assert out[i].id == StepId(out[i].nodeId) && out[j].id == StepId(out[j].nodeId);
        TwiceCounted(b, i, j);
      }
    }
    forall x
      ensures x in NodesOf(out) <==> x in NodesOf(steps)
    {
      if x in NodesOf(steps) {
        var s :| s in steps && s.nodeId == x;
        var i :| 0 <= i < |steps| && steps[i] == s;
        assert a[i] in multiset(a);
        assert a[i] in multiset(b);
        var j :| 0 <= j < |b| && b[j] == a[i];
        assert out[j] in steps && out[j].id == StepId(out[j].nodeId);
        StepIdInjective(out[j].nodeId, x);
        assert out[j] in out;
      }
    }
  }

  ghost function NodeSequence(steps: seq<PlanStep>): seq<string> {
    seq(|steps|, i requires 0 <= i < |steps| => steps[i].nodeId)
  }

  lemma LeqStepId(a: string, b: string)
    ensures Leq(StepId(a), StepId(b)) <==> Leq(a, b)
  {
    var s, t := StepId(a), StepId(b);
    assert s[1..][1..][1..] == a && t[1..][1..][1..] == b;
    assert Leq(s, t) <==> Leq(s[1..], t[1..]);
    assert Leq(s[1..], t[1..]) <==> Leq(s[1..][1..], t[1..][1..]);
    assert Leq(s[1..][1..], t[1..][1..]) <==> Leq(a, b);
  }

  lemma NodesInIdOrder(d: Doc, credentials: Credentials, out: seq<PlanStep>)
    requires Made(d, credentials, out) && Collectable(d) && Sorted(Ids(out))
    ensures NodeSequence(out) == SortedElements(NodesOf(out))
  {
    hide StepFor, SortedElements;
    CollectedStepsAreFree(d, credentials, out);
    var ns := NodeSequence(out);
    forall i, j | 0 <= i < j < |ns|
      ensures Leq(ns[i], ns[j])
    {
      assert Leq(Ids(out)[i], Ids(out)[j]);
      LeqStepId(ns[i], ns[j]);
    }
    forall x
      ensures x in ns <==> x in SortedElements(NodesOf(out))
    {
      if x in NodesOf(out) {
        var s :| s in out && s.nodeId == x;
        var i :| 0 <= i < |out| && out[i] == s;
        assert ns[i] == x;
      }
    }
    SortedIsUnique(ns, SortedElements(NodesOf(out)));
  }

  /** When a run can be compiled: there is a plan, and every node feeding one of its nodes can be read. */
  ghost predicate Accepts(d: Doc, credentials: Credentials, targets: seq<string>) {
    && targets != [] && Plannable(d, credentials, targets) && Needed(d, targets) != {}
    && forall x :: x in Needed(d, targets) ==> SourcesReadable(d, x)
  }

  /** What compiling returns: a step for each needed node, in ID order. */
  ghost predicate Compiled(d: Doc, credentials: Credentials, targets: seq<string>, plan: seq<PlanStep>) {
    && Accepts(d, credentials, targets)
    && Made(d, credentials, plan) && NodeSequence(plan) == SortedElements(Needed(d, targets))
  }

  /** The inputs of each step. */
  ghost predicate InputsFound(d: Doc, plan: seq<PlanStep>, inputs: seq<seq<Input>>) {
    |inputs| == |plan|
    && forall i :: 0 <= i < |plan| ==> plan[i].nodeId in d.nodes && InputsOf(d, plan[i].nodeId) == Ok(inputs[i])
  }

  /** The first node in the list whose inputs cannot be found is refused with this code. */
  ghost predicate RefusedFirst(d: Doc, nodes: seq<string>, code: Code) {
    exists i :: 0 <= i < |nodes| && nodes[i] in d.nodes && InputsOf(d, nodes[i]) == Err(code)
                && forall j :: 0 <= j < i ==> nodes[j] in d.nodes && InputsOf(d, nodes[j]).Ok?
  }

  /**
   * Compiles a run of some targets. The finished plan holds exactly the needed nodes, in ID order: the dependency order
   * in which they were collected is lost.
   */
  method Compile(ghost table: Table, d: Doc, credentials: Credentials,
                 targets: seq<string>) returns (r: Outcome<seq<PlanStep>>, inputs: seq<seq<Input>>)
    requires WF(table, d)
    ensures r.Ok? <==> Accepts(d, credentials, targets)
    ensures r.Ok? ==> Compiled(d, credentials, targets, r.value) && InputsFound(d, r.value, inputs)
    ensures targets == [] || (Plannable(d, credentials, targets) && Needed(d, targets) == {}) ==> r == Err(InvalidRequest)
    ensures r.Err? && targets != [] && Plannable(d, credentials, targets) && Needed(d, targets) != {} ==>
      RefusedFirst(d, SortedElements(Needed(d, targets)), r.code)
  {
    hide WF, Made, NodesOf, Needed, Plannable, Distinct, DependsGraph, Acyclic, SortedElements, FromInput,
      IdSet, Sorted, InputsOf, SourcesReadable, NodeSequence;
    inputs := [];
    if |targets| == 0 {
      r := Err(InvalidRequest);
      return;
    }
    var collected := CollectTargets(table, d, credentials, targets);
    if collected.Err? {
      r := Err(collected.code);
      return;
    }
    var steps := collected.value;
    EmptyHasNoNodes(steps);
    if |steps| == 0 {
      r := Err(InvalidRequest);
      return;
    }
    WellFormedIsCollectable(table, d);
    CollectedStepsAreFree(d, credentials, steps);
    var sorted := TopoSort(steps);
    SortedStepsAreMade(d, credentials, steps, sorted.value);
    NodesInIdOrder(d, credentials, sorted.value);
    MadeOfNodes(d, credentials, sorted.value);
    var plan := sorted.value;
    var i := 0;
    while i < |plan|
      invariant 0 <= i <= |plan| && |inputs| == i
      invariant forall j :: 0 <= j < i ==> InputsOf(d, plan[j].nodeId) == Ok(inputs[j])
    {
      var found := ResolveInputs(d, plan[i].nodeId);
      if found.Err? {
        RefusalIsReal(d, targets, plan, i);
        r := Err(found.code);
        return;
      }
      inputs := inputs + [found.value];
      i := i + 1;
    }
    AllInputsFound(d, targets, plan, inputs);
    r := sorted;
  }

  lemma MadeOfNodes(d: Doc, credentials: Credentials, plan: seq<PlanStep>)
    requires Made(d, credentials, plan)
    ensures forall i :: 0 <= i < |plan| ==> plan[i].nodeId in d.nodes
  {
    hide StepFor;
  }

  /** A step whose inputs cannot be found has a source that cannot be read, and is the first such one of the plan. */
  lemma RefusalIsReal(d: Doc, targets: seq<string>, plan: seq<PlanStep>, i: nat)
    requires NodeSequence(plan) == SortedElements(Needed(d, targets)) && i < |plan|
    requires forall j :: 0 <= j <= i ==> plan[j].nodeId in d.nodes
    requires forall j :: 0 <= j < i ==> InputsOf(d, plan[j].nodeId).Ok?
    requires InputsOf(d, plan[i].nodeId).Err?
    ensures RefusedFirst(d, SortedElements(Needed(d, targets)), InputsOf(d, plan[i].nodeId).code)
    ensures !forall x :: x in Needed(d, targets) ==> SourcesReadable(d, x)
  {
    hide InputsOf, SourcesReadable, SortedElements, Needed;
    var ns := NodeSequence(plan);
    InputsExactly(d, ns[i]);
    assert ns[i] in ns;
    assert forall j :: 0 <= j < i ==> ns[j] == plan[j].nodeId;
  }

  lemma AllInputsFound(d: Doc, targets: seq<string>, plan: seq<PlanStep>, inputs: seq<seq<Input>>)
    requires NodeSequence(plan) == SortedElements(Needed(d, targets))
    requires |inputs| == |plan|
    requires forall i :: 0 <= i < |plan| ==> plan[i].nodeId in d.nodes && InputsOf(d, plan[i].nodeId) == Ok(inputs[i])
    ensures forall x :: x in Needed(d, targets) ==> SourcesReadable(d, x)
  {
    hide InputsOf, SourcesReadable, SortedElements, Needed;
    var ns := NodeSequence(plan);
    forall x | x in Needed(d, targets)
      ensures SourcesReadable(d, x)
    {
      assert x in ns;
      var i :| 0 <= i < |ns| && ns[i] == x;
      InputsExactly(d, plan[i].nodeId);
    }
  }

  /** A run is compiled only when every needed node that feeds another needed node has a result of its own already. */
  lemma CompiledSourcesHaveRun(d: Doc, credentials: Credentials, targets: seq<string>, u: string, x: string)
    requires Accepts(d, credentials, targets)
    requires u in Needed(d, targets) && x in Needed(d, targets) && (u, x) in FlowGraph(d.edges)
    ensures d.nodes[u].result.Some? && d.nodes[u].result.value.variants != []
  {
    hide Plannable, StepFor;
    assert SourcesReadable(d, x);
    NeededIsStep(d, targets, u);
  }

  lemma EmptyHasNoNodes(steps: seq<PlanStep>)
    ensures NodesOf(steps) == {} <==> steps == []
  {
    if steps != [] {
      assert steps[0] in steps;
      assert steps[0].nodeId in NodesOf(steps);
    }
  }

  /** When a finished plan is in dependency order: every needed source has the smaller ID of the two ends of its edge. */
  lemma FinishedPlanIsOrderedExactly(d: Doc, credentials: Credentials, targets: seq<string>, steps: seq<PlanStep>)
    requires Collectable(d) && Made(d, credentials, steps) && NodeSequence(steps) == SortedElements(Needed(d, targets))
    ensures DependencyOrder(d, steps)
       <==> forall u, x :: u in Needed(d, targets) && x in Needed(d, targets) && (u, x) in FlowGraph(d.edges) ==> Leq(u, x)
  {
    hide StepFor, Needed, Made, SortedElements;
    var needed := Needed(d, targets);
    var ns := NodeSequence(steps);
    if DependencyOrder(d, steps) {
      forall u, x | u in needed && x in needed && (u, x) in FlowGraph(d.edges)
        ensures Leq(u, x)
      {
        assert x in ns && u in ns;
        var i :| 0 <= i < |ns| && ns[i] == x;
        NeededIsStep(d, targets, u);
        assert u in NodesOf(steps[..i]);
        var s :| s in steps[..i] && s.nodeId == u;
        var j :| 0 <= j < i && steps[..i][j] == s;
        assert ns[j] == u;
      }
    }
    if forall u, x :: u in needed && x in needed && (u, x) in FlowGraph(d.edges) ==> Leq(u, x) {
      forall i, u | 0 <= i < |steps| && IsStepNode(d, u) && (u, steps[i].nodeId) in FlowGraph(d.edges)
        ensures u in NodesOf(steps[..i])
      {
        assert ns[i] in needed;
        SourceIsNeeded(d, targets, u, ns[i]);
        assert u in ns;
        var j :| 0 <= j < |ns| && ns[j] == u;
        NoSelfArc(d, u);
        if j > i {
          LeqAntisymmetric(u, ns[i]);
        }
        assert steps[..i][j] == steps[j];
      }
    }
  }

  lemma NoSelfArc(d: Doc, u: string)
    requires Collectable(d)
    ensures (u, u) !in FlowGraph(d.edges)
  {
    ReachesSelf(FlowGraph(d.edges), u);
  }

  lemma NeededIsStep(d: Doc, targets: seq<string>, u: string)
    requires u in Needed(d, targets)
    ensures IsStepNode(d, u)
  {
  }

  lemma SourceIsNeeded(d: Doc, targets: seq<string>, u: string, x: string)
    requires x in Needed(d, targets) && IsStepNode(d, u) && (u, x) in FlowGraph(d.edges) && Collectable(d)
    ensures u in Needed(d, targets)
  {
    var g := CollectGraph(d);
    var i :| 0 <= i < |targets| && Reaches(g, targets[i], x);
    assert (x, u) in g;
    ReachesArc(g, x, u);
    ReachesTrans(g, targets[i], x, u);
  }
}
