/** Building a plan: which executable nodes a run needs, collected depth first from its targets. */
module Plans {
  import opened Outcomes
  import opened Digraphs
  import opened Documents
  import opened Schemas
  import opened Operations
  import opened WellFormed
  import opened CycleCheck
  import SchemaDeclarations

  const MaxPlanSteps := 500

  datatype StepKind = Generate | Fetch

  datatype PlanStep = PlanStep(id: string, nodeId: string, kind: StepKind, dependsOn: seq<string>,
                               capability: string, model: string, providerId: string, credentialId: string)

  /** Whether some credential serves a capability, a provider and a credential name. */
  type Credentials = (string, string, string) -> bool

  predicate Executable(n: Node) {
    n.ty == "generation" || n.ty == "run"
  }

  function Text(spec: map<string, Value>, key: string): string {
    if key in spec && spec[key].Str? then spec[key].s else ""
  }

  function StepId(nodeId: string): string {
    "st_" + nodeId
  }

  lemma StepIdInjective(a: string, b: string)
    requires StepId(a) == StepId(b)
    ensures a == b
  {
    assert StepId(a)[3..] == a && StepId(b)[3..] == b;
  }

  /** The step of an executable node; its dependencies are left empty. */
  function StepFor(n: Node, credentials: Credentials): Outcome<PlanStep> {
    if n.ty == "run" then Ok(PlanStep(StepId(n.id), n.id, Fetch, [], "", "", "", ""))
    else
      var cap := SchemaDeclarations.Trimmed(Text(n.spec, "capability"));
      var providerId, credentialId := Text(n.spec, "providerId"), Text(n.spec, "credentialId");
      if !SchemaDeclarations.ValidCapability(Text(n.spec, "capability")) then Err(InvalidSpec)
      else if !credentials(cap, providerId, credentialId) then Err(InvalidRequest)
      else Ok(PlanStep(StepId(n.id), n.id, Generate, [], cap, Text(n.spec, "model"), providerId, credentialId))
  }

  lemma StepForNames(n: Node, credentials: Credentials)
    ensures var r := StepFor(n, credentials);
            match r
            case Ok(s) => s.nodeId == n.id && s.id == StepId(n.id) && s.dependsOn == []
            case Err(code) => code != NotFound && code != PayloadTooLarge
  {
  }

  // ---------------------------------------------------------------- what a run needs

  ghost predicate IsStepNode(d: Doc, x: string) {
    x in d.nodes && Executable(d.nodes[x])
  }

  /** Where collection goes next: a group to its children, an executable node to its sources, a resource nowhere. */
  ghost predicate Leads(d: Doc, x: string, y: string) {
    x in d.nodes && y in d.nodes &&
    if d.nodes[x].ty == "group" then y in ChildIds(d.nodes, x)
    else Executable(d.nodes[x]) && (y, x) in FlowGraph(d.edges)
  }

  ghost function CollectGraph(d: Doc): Digraph<string> {
    set x, y | x in d.nodes && y in d.nodes && Leads(d, x, y) :: (x, y)
  }

  /** The executable nodes a run of these targets needs. */
  ghost function Needed(d: Doc, targets: seq<string>): set<string> {
    set x | x in d.nodes && IsStepNode(d, x) && NeededFor(d, targets, x)
  }

  ghost predicate NeededFor(d: Doc, targets: seq<string>, x: string) {
    exists i :: 0 <= i < |targets| && Reaches(CollectGraph(d), targets[i], x)
  }

  /** The only reasons not to have a plan: a missing target, a node without a step, too many steps. */
  ghost predicate Plannable(d: Doc, credentials: Credentials, targets: seq<string>) {
    && (forall i :: 0 <= i < |targets| ==> targets[i] in d.nodes)
    && (forall x :: x in Needed(d, targets) ==> StepFor(d.nodes[x], credentials).Ok?)
    && |Needed(d, targets)| <= MaxPlanSteps
  }

  // ---------------------------------------------------------------- the collected list

  ghost function NodesOf(steps: seq<PlanStep>): set<string> {
    set s | s in steps :: s.nodeId
  }

  /** Steps of different executable nodes, each made from its node. */
  ghost predicate Made(d: Doc, credentials: Credentials, steps: seq<PlanStep>) {
    && (forall i :: 0 <= i < |steps| ==>
          IsStepNode(d, steps[i].nodeId) && StepFor(d.nodes[steps[i].nodeId], credentials) == Ok(steps[i]))
    && (forall i, j :: 0 <= i < j < |steps| ==> steps[i].nodeId != steps[j].nodeId)
  }

  /** Each step comes after the steps of all its node's executable sources. */
  ghost predicate DependencyOrder(d: Doc, steps: seq<PlanStep>) {
    forall i, u :: 0 <= i < |steps| && IsStepNode(d, u) && (u, steps[i].nodeId) in FlowGraph(d.edges) ==>
      u in NodesOf(steps[..i])
  }

  /** Visited executable nodes whose step is not there yet. */
  ghost function Pending(d: Doc, visited: set<string>, steps: seq<PlanStep>): set<string> {
    set x | x in visited && IsStepNode(d, x) && x !in NodesOf(steps)
  }

  /** Everything newly visited has been followed all the way. */
  ghost predicate Followed(d: Doc, before: set<string>, after: set<string>) {
    forall x, y :: x in after && x !in before && (x, y) in CollectGraph(d) ==> y in after
  }

  /** Why collection stopped at a node. */
  ghost predicate Stops(d: Doc, credentials: Credentials, steps: seq<PlanStep>, code: Code, x: string) {
    if code == NotFound then x !in d.nodes
    else
      IsStepNode(d, x)
      && (StepFor(d.nodes[x], credentials) == Err(code)
          || (code == PayloadTooLarge && |steps| == MaxPlanSteps && x !in NodesOf(steps)))
  }

  ghost predicate StopsBelow(d: Doc, credentials: Credentials, steps: seq<PlanStep>, code: Code, start: string) {
    exists x :: Reaches(CollectGraph(d), start, x) && Stops(d, credentials, steps, code, x)
  }

  /** What collection relies on in the document. */
  ghost predicate Collectable(d: Doc) {
    && (forall k :: k in d.nodes ==> d.nodes[k].id == k)
    && (forall a, b :: (a, b) in FlowGraph(d.edges) ==>
          a in d.nodes && b in d.nodes && d.nodes[a].ty != "group" && d.nodes[b].ty != "group")
    && Acyclic(FlowGraph(d.edges))
  }

  lemma WellFormedIsCollectable(table: Table, d: Doc)
    requires WF(table, d)
    ensures Collectable(d)
  {
    forall a, b | (a, b) in FlowGraph(d.edges)
      ensures a in d.nodes && b in d.nodes && d.nodes[a].ty != "group" && d.nodes[b].ty != "group"
    {
      FlowAvoidsGroups(d.nodes, d.edges, a, b);
    }
    forall k | k in d.nodes
      ensures d.nodes[k].id == k
    {
      assert NodesOk(table, d.nodes);
    }
  }

  // ---------------------------------------------------------------- steps of the argument

  lemma NodesOfAppend(steps: seq<PlanStep>, s: PlanStep)
    ensures NodesOf(steps + [s]) == NodesOf(steps) + {s.nodeId}
  {
    assert forall t :: t in steps + [s] <==> t in steps || t == s;
  }

  lemma {:induction false} NodesOfSize(steps: seq<PlanStep>)
    requires forall i, j :: 0 <= i < j < |steps| ==> steps[i].nodeId != steps[j].nodeId
    ensures |NodesOf(steps)| == |steps|
  {
    if steps != [] {
      var n := |steps| - 1;
      NodesOfSize(steps[..n]);
      assert steps == steps[..n] + [steps[n]];
      NodesOfAppend(steps[..n], steps[n]);
      assert steps[n].nodeId !in NodesOf(steps[..n]);
    }
  }

  /** The next nodes of a group are its children. */
  lemma ChildrenAreNext(d: Doc, cur: string)
    requires cur in d.nodes && d.nodes[cur].ty == "group"
    ensures NextOf(d, cur, ChildrenOf(d.nodes, cur))
  {
    var next := ChildrenOf(d.nodes, cur);
    forall y
      ensures y in next <==> (cur, y) in CollectGraph(d)
    {
      assert y in next <==> y in ChildIds(d.nodes, cur);
    }
  }

  ghost predicate NextOf(d: Doc, cur: string, next: seq<string>) {
    forall y :: y in next <==> (cur, y) in CollectGraph(d)
  }

  function Sources(es: seq<Edge>): seq<string> {
    seq(|es|, i requires 0 <= i < |es| => es[i].from.nodeId)
  }

  /** The next nodes of an executable node are the sources of its edges. */
  lemma SourcesAreNext(d: Doc, cur: string)
    requires Collectable(d) && IsStepNode(d, cur)
    ensures NextOf(d, cur, Sources(UpstreamOf(d.edges, cur)))
  {
    hide UpstreamOf;
    var es := UpstreamOf(d.edges, cur);
    var next := Sources(es);
    forall y
      ensures y in next <==> (cur, y) in CollectGraph(d)
    {
      if y in next {
        var i :| 0 <= i < |next| && next[i] == y;
        var k := UpstreamIsIncoming(d.edges, cur, i);
        assert (y, cur) in FlowGraph(d.edges);
      }
      if (cur, y) in CollectGraph(d) {
        assert (y, cur) in FlowGraph(d.edges);
        var k :| k in d.edges && d.edges[k].from.nodeId == y && d.edges[k].to.nodeId == cur;
        var i := IncomingIsUpstream(d.edges, cur, k);
        assert next[i] == y;
      }
    }
  }

  /** All pending nodes are downstream of a node. */
  ghost predicate Awaits(d: Doc, pending: set<string>, cur: string) {
    forall g :: g in pending ==> Reaches(FlowGraph(d.edges), cur, g)
  }

  lemma GroupReachesNothing(d: Doc, cur: string, g: string)
    requires Collectable(d) && cur in d.nodes && d.nodes[cur].ty == "group" && Reaches(FlowGraph(d.edges), cur, g)
    ensures g == cur
  {
    if g != cur {
      var c := FirstStep(FlowGraph(d.edges), cur, g);
      assert false;
    }
  }

  /** Groups carry no edges, so a group is collected only while no step is pending. */
  lemma NothingPendingAtGroup(d: Doc, cur: string, pending: set<string>)
    requires Collectable(d) && cur in d.nodes && d.nodes[cur].ty == "group"
    requires Awaits(d, pending, cur) && forall g :: g in pending ==> IsStepNode(d, g)
    ensures pending == {}
  {
    if g :| g in pending {
      GroupReachesNothing(d, cur, g);
    }
  }

  /** A source of a node awaits whatever the node awaits, and the node itself. */
  lemma SourceAwaits(d: Doc, pending: set<string>, cur: string, u: string)
    requires Awaits(d, pending, cur) && (u, cur) in FlowGraph(d.edges)
    ensures Awaits(d, pending + {cur}, u)
  {
    var g := FlowGraph(d.edges);
    ReachesArc(g, u, cur);
    forall p | p in pending + {cur}
      ensures Reaches(g, u, p)
    {
      if p != cur {
        ReachesTrans(g, u, cur, p);
      }
    }
  }

  /** A source of a node is never pending behind that node: that would close a cycle of edges. */
  lemma SourceNotPending(d: Doc, pending: set<string>, cur: string, u: string)
    requires Acyclic(FlowGraph(d.edges)) && Awaits(d, pending, cur) && (u, cur) in FlowGraph(d.edges)
    ensures u !in pending + {cur}
  {
    ReachesSelf(FlowGraph(d.edges), cur);
  }

  /** Appending the step of a pending node whose sources are all visited and not pending. */
  lemma AppendKeepsOrder(d: Doc, credentials: Credentials, visited: set<string>, steps: seq<PlanStep>, cur: string)
    requires Made(d, credentials, steps) && DependencyOrder(d, steps)
    requires Collectable(d) && IsStepNode(d, cur) && cur !in NodesOf(steps)
    requires StepFor(d.nodes[cur], credentials).Ok?
    requires forall u :: (u, cur) in FlowGraph(d.edges) ==> u in visited && u !in Pending(d, visited, steps)
    ensures var more := steps + [StepFor(d.nodes[cur], credentials).value];
            Made(d, credentials, more) && DependencyOrder(d, more)
  {
    hide StepFor;
    StepForNames(d.nodes[cur], credentials);
    var step := StepFor(d.nodes[cur], credentials).value;
    var more := steps + [step];
    forall i, j | 0 <= i < j < |more|
      ensures more[i].nodeId != more[j].nodeId
    {
      if j == |steps| {
        assert steps[i] in steps;
      }
    }
    forall i, u | 0 <= i < |more| && IsStepNode(d, u) && (u, more[i].nodeId) in FlowGraph(d.edges)
      ensures u in NodesOf(more[..i])
    {
      if i < |steps| {
        assert more[..i] == steps[..i];
      } else {
        assert more[..i] == steps;
        assert u in NodesOf(steps);
      }
    }
  }

  lemma PendingVisit(d: Doc, visited: set<string>, steps: seq<PlanStep>, cur: string)
    requires NodesOf(steps) <= visited && cur !in visited
    ensures IsStepNode(d, cur) ==> Pending(d, visited + {cur}, steps) == Pending(d, visited, steps) + {cur}
    ensures !IsStepNode(d, cur) ==> Pending(d, visited + {cur}, steps) == Pending(d, visited, steps)
    ensures forall g :: g in Pending(d, visited, steps) ==> IsStepNode(d, g) && g != cur
  {
  }

  lemma PendingAppend(d: Doc, visited: set<string>, steps: seq<PlanStep>, step: PlanStep)
    ensures Pending(d, visited, steps + [step]) == Pending(d, visited, steps) - {step.nodeId}
  {
    NodesOfAppend(steps, step);
  }

  /** Once all next nodes are visited, a node has been followed. */
  lemma FollowedNode(d: Doc, before: set<string>, after: set<string>, cur: string, next: seq<string>)
    requires Followed(d, before + {cur}, after)
    requires NextOf(d, cur, next) && forall y :: y in next ==> y in after
    ensures Followed(d, before, after)
  {
  }

  lemma FollowedTwice(d: Doc, a: set<string>, b: set<string>, c: set<string>)
    requires Followed(d, a, b) && Followed(d, b, c) && b <= c
    ensures Followed(d, a, c)
  {
  }

  lemma StopsFurther(d: Doc, credentials: Credentials, steps: seq<PlanStep>, code: Code, a: string, b: string)
    requires (a, b) in CollectGraph(d) && StopsBelow(d, credentials, steps, code, b)
    ensures StopsBelow(d, credentials, steps, code, a)
  {
    var x :| Reaches(CollectGraph(d), b, x) && Stops(d, credentials, steps, code, x);
    ReachesArc(CollectGraph(d), a, b);
    ReachesTrans(CollectGraph(d), a, b, x);
  }

  lemma ReachFurther(d: Doc, a: string, b: string, x: string)
    requires (a, b) in CollectGraph(d) && Reaches(CollectGraph(d), b, x)
    ensures Reaches(CollectGraph(d), a, x)
  {
    ReachesArc(CollectGraph(d), a, b);
    ReachesTrans(CollectGraph(d), a, b, x);
  }

  lemma StopsHere(d: Doc, credentials: Credentials, steps: seq<PlanStep>, code: Code, cur: string)
    requires Stops(d, credentials, steps, code, cur)
    ensures StopsBelow(d, credentials, steps, code, cur)
  {
    ReachesSelf(CollectGraph(d), cur);
  }

  class Collector {
    var visited: set<string>
    var steps: seq<PlanStep>

    constructor ()
      ensures visited == {} && steps == []
    {
      visited, steps := {}, [];
    }

    ghost predicate Valid(d: Doc, credentials: Credentials)
      reads this
    {
      && Made(d, credentials, steps) && DependencyOrder(d, steps)
      && |steps| <= MaxPlanSteps && NodesOf(steps) <= visited
    }

    /** Collects a node after everything it needs. */
    method Collect(d: Doc, credentials: Credentials, cur: string) returns (r: Check)
      requires Collectable(d) && Valid(d, credentials) && visited <= d.nodes.Keys
      requires Awaits(d, Pending(d, visited, steps), cur)
      modifies this
      ensures old(visited) <= visited && old(steps) <= steps
      ensures Valid(d, credentials)
      ensures forall x :: x in visited && x !in old(visited) ==> Reaches(CollectGraph(d), cur, x)
      ensures r.Pass? ==>
                && cur in visited && visited <= d.nodes.Keys
                && Pending(d, visited, steps) == Pending(d, old(visited), old(steps))
                && Followed(d, old(visited), visited)
      ensures r.Fail? ==> StopsBelow(d, credentials, steps, r.code, cur)
      decreases d.nodes.Keys - visited, 0
    {
      hide Collectable, Awaits, Reaches, Made, DependencyOrder, NodesOf, StepFor, CollectGraph, ChildrenOf,
        UpstreamOf, Pending;
      if cur in visited {
        return Pass;
      }
      ghost var pending := Pending(d, visited, steps);
      ReachesSelf(CollectGraph(d), cur);
      PendingVisit(d, visited, steps, cur);
      visited := visited + {cur};
      if cur !in d.nodes {
        StopsHere(d, credentials, steps, NotFound, cur);
        return Fail(NotFound);
      }
      var n := d.nodes[cur];
      var next: seq<string>;
      if n.ty == "group" {
        next := ChildrenOf(d.nodes, cur);
        GroupReady(d, cur, pending, next);
      } else if n.ty != "generation" && n.ty != "run" {
        ResourceStops(d, cur);
        return Pass;
      } else {
        next := Sources(UpstreamOf(d.edges, cur));
        SourcesReady(d, cur, pending, next);
      }
      r := CollectAll(d, credentials, cur, next);
      if r.Fail? {
        return;
      }
      FollowedNode(d, old(visited), visited, cur, next);
      if n.ty == "group" {
        return;
      }
      ghost var before := steps;
      assert cur in Pending(d, visited, steps);
      NotYet(d, visited, steps, cur);
      if |steps| >= MaxPlanSteps {
        StopsHere(d, credentials, steps, PayloadTooLarge, cur);
        return Fail(PayloadTooLarge);
      }
      var step := StepFor(n, credentials);
      StepForNames(n, credentials);
      NamedByKey(d, cur);
      if step.Err? {
        StopsHere(d, credentials, steps, step.code, cur);
        return Fail(step.code);
      }
      SourcesDone(d, visited, steps, pending, cur, next);
      AppendKeepsOrder(d, credentials, visited, steps, cur);
      PendingAppend(d, visited, steps, step.value);
      NodesOfAppend(steps, step.value);
      steps := steps + [step.value];
    }

    method CollectAll(d: Doc, credentials: Credentials, cur: string, next: seq<string>) returns (r: Check)
      requires Collectable(d) && Valid(d, credentials) && visited <= d.nodes.Keys
      requires cur in visited && NextOf(d, cur, next)
      requires forall y :: y in next ==> Awaits(d, Pending(d, visited, steps), y)
      modifies this
      ensures old(visited) <= visited && old(steps) <= steps
      ensures Valid(d, credentials)
      ensures forall x :: x in visited && x !in old(visited) ==> Reaches(CollectGraph(d), cur, x)
      ensures r.Pass? ==>
                && (forall y :: y in next ==> y in visited) && visited <= d.nodes.Keys
                && Pending(d, visited, steps) == Pending(d, old(visited), old(steps))
                && Followed(d, old(visited), visited)
      ensures r.Fail? ==> StopsBelow(d, credentials, steps, r.code, cur)
      decreases d.nodes.Keys - visited, 1
    {
      hide Collectable, Awaits, Reaches, Made, DependencyOrder, NodesOf, StepFor, CollectGraph, Pending,
        Followed, StopsBelow;
      FollowedNothing(d, visited);
      for i := 0 to |next|
        invariant old(visited) <= visited <= d.nodes.Keys && old(steps) <= steps
        invariant Valid(d, credentials)
        invariant forall x :: x in visited && x !in old(visited) ==> Reaches(CollectGraph(d), cur, x)
        invariant forall j :: 0 <= j < i ==> next[j] in visited
        invariant Pending(d, visited, steps) == Pending(d, old(visited), old(steps))
        invariant Followed(d, old(visited), visited)
      {
        ghost var was := visited;
        assert next[i] in next;
        r := Collect(d, credentials, next[i]);
        forall x | x in visited && x !in was
          ensures Reaches(CollectGraph(d), cur, x)
        {
          ReachFurther(d, cur, next[i], x);
        }
        if r.Fail? {
          StopsFurther(d, credentials, steps, r.code, cur, next[i]);
          return;
        }
        FollowedTwice(d, old(visited), was, visited);
      }
      r := Pass;
    }
  }

  lemma FollowedNothing(d: Doc, visited: set<string>)
    ensures Followed(d, visited, visited)
  {
  }

  lemma GroupReady(d: Doc, cur: string, pending: set<string>, next: seq<string>)
    requires Collectable(d) && cur in d.nodes && d.nodes[cur].ty == "group" && next == ChildrenOf(d.nodes, cur)
    requires Awaits(d, pending, cur) && forall g :: g in pending ==> IsStepNode(d, g)
    ensures !IsStepNode(d, cur) && NextOf(d, cur, next) && forall y :: y in next ==> Awaits(d, pending, y)
  {
    ChildrenAreNext(d, cur);
    NothingPendingAtGroup(d, cur, pending);
  }

  lemma SourcesReady(d: Doc, cur: string, pending: set<string>, next: seq<string>)
    requires Collectable(d) && IsStepNode(d, cur) && next == Sources(UpstreamOf(d.edges, cur))
    requires Awaits(d, pending, cur)
    ensures NextOf(d, cur, next) && forall y :: y in next ==> Awaits(d, pending + {cur}, y)
  {
    hide UpstreamOf;
    SourcesAreNext(d, cur);
    forall y | y in next
      ensures Awaits(d, pending + {cur}, y)
    {
      assert (cur, y) in CollectGraph(d);
      SourceAwaits(d, pending, cur, y);
    }
  }

  lemma NamedByKey(d: Doc, cur: string)
    requires Collectable(d) && cur in d.nodes
    ensures d.nodes[cur].id == cur
  {
  }

  lemma ResourceStops(d: Doc, cur: string)
    requires cur in d.nodes && d.nodes[cur].ty != "group" && !Executable(d.nodes[cur])
    ensures !IsStepNode(d, cur) && forall y :: (cur, y) !in CollectGraph(d)
  {
  }

  lemma NotYet(d: Doc, visited: set<string>, steps: seq<PlanStep>, cur: string)
    requires cur in Pending(d, visited, steps)
    ensures IsStepNode(d, cur) && cur !in NodesOf(steps)
  {
  }

  /** When all sources have been collected, each executable one has its step. */
  lemma SourcesDone(d: Doc, visited: set<string>, steps: seq<PlanStep>, pending: set<string>, cur: string,
                    next: seq<string>)
    requires Collectable(d) && IsStepNode(d, cur) && NextOf(d, cur, next) && Awaits(d, pending, cur)
    requires (forall y :: y in next ==> y in visited) && Pending(d, visited, steps) == pending + {cur}
    ensures forall u :: (u, cur) in FlowGraph(d.edges) ==> u in visited && u !in Pending(d, visited, steps)
  {
    forall u | (u, cur) in FlowGraph(d.edges)
      ensures u in visited && u !in pending + {cur}
    {
      assert (cur, u) in CollectGraph(d);
      SourceNotPending(d, pending, cur, u);
    }
  }

  // ---------------------------------------------------------------- all targets

  /** Everything visited is reached from some target. */
  ghost predicate Wanted(d: Doc, targets: seq<string>, visited: set<string>) {
    forall x :: x in visited ==> NeededFor(d, targets, x)
  }

  lemma WantedMore(d: Doc, targets: seq<string>, i: nat, before: set<string>, after: set<string>)
    requires i < |targets| && Wanted(d, targets, before)
    requires forall x :: x in after && x !in before ==> Reaches(CollectGraph(d), targets[i], x)
    ensures Wanted(d, targets, after)
  {
  }

  lemma StepsAreNeeded(d: Doc, credentials: Credentials, targets: seq<string>, visited: set<string>,
                       steps: seq<PlanStep>)
    requires Made(d, credentials, steps) && NodesOf(steps) <= visited && Wanted(d, targets, visited)
    ensures NodesOf(steps) <= Needed(d, targets) && |NodesOf(steps)| == |steps|
  {
    NodesOfSize(steps);
  }

  /** Collection stops only for a reason that rules out every plan. */
  lemma StoppingMeansNoPlan(d: Doc, credentials: Credentials, targets: seq<string>, i: nat, visited: set<string>,
                            steps: seq<PlanStep>, code: Code)
    requires i < |targets| && StopsBelow(d, credentials, steps, code, targets[i])
    requires Made(d, credentials, steps) && NodesOf(steps) <= visited && Wanted(d, targets, visited)
    ensures !Plannable(d, credentials, targets)
    ensures code == NotFound ==> targets[i] !in d.nodes
  {
    hide StepFor;
    var g := CollectGraph(d);
    var x :| Reaches(g, targets[i], x) && Stops(d, credentials, steps, code, x);
    if targets[i] in d.nodes {
      assert ClosedUnder(g, d.nodes.Keys);
      ClosedContains(g, d.nodes.Keys, targets[i], x);
      assert x in Needed(d, targets);
      StepsAreNeeded(d, credentials, targets, visited, steps);
      if code == PayloadTooLarge && |steps| == MaxPlanSteps && x !in NodesOf(steps) {
        SubsetSize(NodesOf(steps) + {x}, Needed(d, targets));
      }
    }
  }

  lemma {:induction false} SubsetSize<T>(a: set<T>, b: set<T>)
    requires a <= b
    ensures |a| <= |b|
  {
    if x :| x in a {
      SubsetSize(a - {x}, b - {x});
    }
  }

  /** With nothing pending and everything followed, the steps are exactly those needed. */
  lemma CollectedIsNeeded(d: Doc, credentials: Credentials, targets: seq<string>, visited: set<string>,
                          steps: seq<PlanStep>)
    requires Made(d, credentials, steps) && NodesOf(steps) <= visited && Wanted(d, targets, visited)
    requires Pending(d, visited, steps) == {} && Followed(d, {}, visited)
    requires forall i :: 0 <= i < |targets| ==> targets[i] in visited
    ensures NodesOf(steps) == Needed(d, targets) && |Needed(d, targets)| == |steps|
    ensures forall x :: x in Needed(d, targets) ==> StepFor(d.nodes[x], credentials).Ok?
  {
    hide StepFor;
    StepsAreNeeded(d, credentials, targets, visited, steps);
    forall x | x in Needed(d, targets)
      ensures x in NodesOf(steps)
    {
      var i :| 0 <= i < |targets| && Reaches(CollectGraph(d), targets[i], x);
      ClosedContains(CollectGraph(d), visited, targets[i], x);
      assert x !in Pending(d, visited, steps);
    }
    forall x | x in Needed(d, targets)
      ensures StepFor(d.nodes[x], credentials).Ok?
    {
      var s :| s in steps && s.nodeId == x;
    }
  }

  /**
   * Collects all targets. It succeeds exactly when the targets exist, every needed node has a step and
   * there are at most 500 of them; the list then holds each needed node once, after all its sources.
   */
  method CollectTargets(ghost table: Table, d: Doc, credentials: Credentials, targets: seq<string>)
    returns (r: Outcome<seq<PlanStep>>)
    requires WF(table, d)
    ensures r.Ok? <==> Plannable(d, credentials, targets)
    ensures r.Ok? ==> Made(d, credentials, r.value) && DependencyOrder(d, r.value) && NodesOf(r.value) == Needed(d, targets)
    ensures r == Err(NotFound) ==> exists i :: 0 <= i < |targets| && targets[i] !in d.nodes
  {
    hide WF, Awaits, Reaches, Made, DependencyOrder, NodesOf, StepFor, CollectGraph, Pending, Followed, StopsBelow,
         Wanted, Needed, Collectable;
    WellFormedIsCollectable(table, d);
    var c := new Collector();
    Nothing(d, credentials, targets);
    for i := 0 to |targets|
      invariant c.visited <= d.nodes.Keys && c.Valid(d, credentials) && fresh(c)
      invariant Pending(d, c.visited, c.steps) == {} && Followed(d, {}, c.visited)
      invariant Wanted(d, targets, c.visited)
      invariant forall j :: 0 <= j < i ==> targets[j] in c.visited
    {
      ghost var was := c.visited;
      NothingAwaited(d, targets[i]);
      var outcome := c.Collect(d, credentials, targets[i]);
      WantedMore(d, targets, i, was, c.visited);
      if outcome.Fail? {
        StoppingMeansNoPlan(d, credentials, targets, i, c.visited, c.steps, outcome.code);
        return Err(outcome.code);
      }
      FollowedTwice(d, {}, was, c.visited);
    }
    CollectedIsNeeded(d, credentials, targets, c.visited, c.steps);
    return Ok(c.steps);
  }

  lemma Nothing(d: Doc, credentials: Credentials, targets: seq<string>)
    ensures Made(d, credentials, []) && DependencyOrder(d, []) && NodesOf([]) == {}
    ensures Pending(d, {}, []) == {} && Followed(d, {}, {}) && Wanted(d, targets, {})
  {
  }

  lemma NothingAwaited(d: Doc, cur: string)
    ensures Awaits(d, {}, cur)
  {
  }

  // ---------------------------------------------------------------- what a step carries, and which nodes have one

  /** A text field of a configuration, the empty text if it is absent or no text. */
  ghost predicate FieldIs(spec: map<string, Value>, key: string, s: string) {
    if key in spec && spec[key].Str? then s == spec[key].s else s == ""
  }

  /** The capability a configuration spells, which is one of the known ones. */
  ghost predicate CapabilityOf(spec: map<string, Value>, capability: string) {
    capability in SchemaDeclarations.Known
    && exists text :: FieldIs(spec, "capability", text) && SchemaDeclarations.Spells(text, capability)
  }

  lemma CapabilityIsOne(spec: map<string, Value>)
    ensures var text := Text(spec, "capability"); var cap := SchemaDeclarations.Trimmed(text);
      && (SchemaDeclarations.ValidCapability(text) <==> CapabilityOf(spec, cap))
      && forall k :: CapabilityOf(spec, k) ==> k == cap
  {
    hide SchemaDeclarations.Trimmed, SchemaDeclarations.Spells;
    var text := Text(spec, "capability");
    assert FieldIs(spec, "capability", text);
    SchemaDeclarations.TrimmedSpells(text);
    forall k | CapabilityOf(spec, k)
      ensures k == SchemaDeclarations.Trimmed(text)
    {
      SchemaDeclarations.SpelledIsTrimmed(text, k);
    }
  }

  /** A run node becomes a fetch; a generation becomes a call with its own capability, model, provider and credential, for which there is a channel. */
  lemma StepsCarryTheirNode(d: Doc, credentials: Credentials, steps: seq<PlanStep>, i: nat)
    requires Made(d, credentials, steps) && Collectable(d) && i < |steps|
    ensures var s := steps[i];
      && s.nodeId in d.nodes && s.id == "st_" + s.nodeId
      && var n := d.nodes[s.nodeId];
         && (n.ty == "run" || n.ty == "generation")
         && (n.ty == "run" ==> s.kind == Fetch && s.capability == s.model == s.providerId == s.credentialId == "")
         && (n.ty == "generation" ==>
               && s.kind == Generate
               && CapabilityOf(n.spec, s.capability) && FieldIs(n.spec, "model", s.model)
               && FieldIs(n.spec, "providerId", s.providerId) && FieldIs(n.spec, "credentialId", s.credentialId)
               && credentials(s.capability, s.providerId, s.credentialId))
  {
    hide SchemaDeclarations.Trimmed;
    CapabilityIsOne(d.nodes[steps[i].nodeId].spec);
    assert d.nodes[steps[i].nodeId].id == steps[i].nodeId;
  }

  /**
   * When there is a plan: the targets exist, at most five hundred nodes are needed, and every needed generation has a known
   * capability and a credential for it, its provider and its credential name.
   */
  lemma PlannableExactly(d: Doc, credentials: Credentials, targets: seq<string>)
    ensures Plannable(d, credentials, targets)
       <==> && (forall i :: 0 <= i < |targets| ==> targets[i] in d.nodes)
            && |Needed(d, targets)| <= 500
            && forall x :: x in Needed(d, targets) && d.nodes[x].ty == "generation" ==> HasChannel(d.nodes[x].spec, credentials)
  {
    hide Needed, SchemaDeclarations.ValidCapability;
    forall x | x in Needed(d, targets)
      ensures x in d.nodes
      ensures StepFor(d.nodes[x], credentials).Ok? <==> d.nodes[x].ty == "generation" ==> HasChannel(d.nodes[x].spec, credentials)
    {
      NeededIsTyped(d, targets, x);
      ChannelExactly(d.nodes[x], credentials);
    }
    hide StepFor, HasChannel;
  }

  lemma NeededIsTyped(d: Doc, targets: seq<string>, x: string)
    requires x in Needed(d, targets)
    ensures x in d.nodes && (d.nodes[x].ty == "generation" || d.nodes[x].ty == "run")
  {
  }

  ghost predicate HasChannel(spec: map<string, Value>, credentials: Credentials) {
    exists cap, provider, credential ::
      && CapabilityOf(spec, cap) && FieldIs(spec, "providerId", provider) && FieldIs(spec, "credentialId", credential)
      && credentials(cap, provider, credential)
  }

  lemma ChannelExactly(n: Node, credentials: Credentials)
    requires n.ty == "generation" || n.ty == "run"
    ensures StepFor(n, credentials).Ok? <==> n.ty == "generation" ==> HasChannel(n.spec, credentials)
  {
    hide SchemaDeclarations.Trimmed, SchemaDeclarations.ValidCapability, CapabilityOf;
    CapabilityIsOne(n.spec);
    var provider, credential := Text(n.spec, "providerId"), Text(n.spec, "credentialId");
    assert FieldIs(n.spec, "providerId", provider) && FieldIs(n.spec, "credentialId", credential);
  }

  /** Nodes reached by following groups to their children and steps to their sources. */
  ghost predicate Follows(d: Doc, s: set<string>) {
    && (forall g, k :: g in s && g in d.nodes && d.nodes[g].ty == "group" && k in d.nodes && d.nodes[k].parentId == g ==> k in s)
    && (forall x, e :: x in s && x in d.nodes && d.nodes[x].ty in {"generation", "run"} && e in d.edges && d.edges[e].to.nodeId == x
          ==> d.edges[e].from.nodeId in s)
  }

  /**
   * The needed nodes are the generation and run nodes of the least set that holds the targets, the children of its
   * groups and the sources of its steps: they are in every such set, and together with the rest of one they are such a set.
   */
  lemma NeededIsLeast(d: Doc, targets: seq<string>, s: set<string>)
    requires Collectable(d) && Follows(d, s) && forall i :: 0 <= i < |targets| ==> targets[i] in s
    ensures Needed(d, targets) <= s
    ensures forall x :: x in Needed(d, targets) ==> d.nodes[x].ty in {"generation", "run"}
  {
    forall x | x in Needed(d, targets)
      ensures x in s
    {
      var i :| 0 <= i < |targets| && Reaches(CollectGraph(d), targets[i], x);
      forall a, b | (a, b) in CollectGraph(d) && a in s
        ensures b in s
      {
        LeadsInside(d, s, a, b);
      }
      ClosedContains(CollectGraph(d), s, targets[i], x);
    }
  }

  lemma LeadsInside(d: Doc, s: set<string>, a: string, b: string)
    requires Follows(d, s) && a in s && Leads(d, a, b)
    ensures b in s
  {
    if d.nodes[a].ty != "group" {
      var e :| e in d.edges && d.edges[e].from.nodeId == b && d.edges[e].to.nodeId == a;
    }
  }

  /** Everything a run reaches from its targets. */
  ghost function Reached(d: Doc, targets: seq<string>): set<string> {
    set x | x in d.nodes && NeededFor(d, targets, x)
  }

  lemma ReachedFollows(d: Doc, targets: seq<string>)
    requires Collectable(d) && forall i :: 0 <= i < |targets| ==> targets[i] in d.nodes
    ensures Follows(d, Reached(d, targets)) && forall i :: 0 <= i < |targets| ==> targets[i] in Reached(d, targets)
    ensures Needed(d, targets) == set x | x in Reached(d, targets) && d.nodes[x].ty in {"generation", "run"}
  {
    hide CollectGraph, FlowGraph, Reached, Needed, Leads;
    ReachedIsNode(d, targets);
    forall i | 0 <= i < |targets|
      ensures targets[i] in Reached(d, targets)
    {
      TargetIsReached(d, targets, i);
    }
    forall g, k | g in Reached(d, targets) && d.nodes[g].ty == "group" && k in d.nodes && d.nodes[k].parentId == g
      ensures k in Reached(d, targets)
    {
      ChildLeads(d, g, k);
      ReachedOn(d, targets, g, k);
    }
    forall x, e | x in Reached(d, targets) && d.nodes[x].ty in {"generation", "run"} && e in d.edges && d.edges[e].to.nodeId == x
      ensures d.edges[e].from.nodeId in Reached(d, targets)
    {
      SourceLeads(d, x, e);
      ReachedOn(d, targets, x, d.edges[e].from.nodeId);
    }
    NeededIsReached(d, targets);
  }

  lemma ReachedIsNode(d: Doc, targets: seq<string>)
    ensures forall x :: x in Reached(d, targets) ==> x in d.nodes
  {
  }

  lemma NeededIsReached(d: Doc, targets: seq<string>)
    ensures forall x :: x in Reached(d, targets) ==> x in d.nodes
    ensures Needed(d, targets) == set x | x in Reached(d, targets) && d.nodes[x].ty in {"generation", "run"}
  {
    hide NeededFor;
  }

  lemma TargetIsReached(d: Doc, targets: seq<string>, i: nat)
    requires i < |targets| && targets[i] in d.nodes
    ensures targets[i] in Reached(d, targets)
  {
    hide CollectGraph;
    ReachesSelf(CollectGraph(d), targets[i]);
  }

  lemma ChildLeads(d: Doc, g: string, k: string)
    requires g in d.nodes && d.nodes[g].ty == "group" && k in d.nodes && d.nodes[k].parentId == g
    ensures Leads(d, g, k)
  {
  }

  lemma SourceLeads(d: Doc, x: string, e: string)
    requires Collectable(d) && x in d.nodes && d.nodes[x].ty in {"generation", "run"} && e in d.edges && d.edges[e].to.nodeId == x
    ensures Leads(d, x, d.edges[e].from.nodeId)
  {
    assert (d.edges[e].from.nodeId, x) in FlowGraph(d.edges);
  }

  lemma ReachedOn(d: Doc, targets: seq<string>, x: string, y: string)
    requires x in Reached(d, targets) && Leads(d, x, y)
    ensures y in Reached(d, targets)
  {
    var g := CollectGraph(d);
    var i :| 0 <= i < |targets| && Reaches(g, targets[i], x);
    assert (x, y) in g;
    ReachesArc(g, x, y);
    ReachesTrans(g, targets[i], x, y);
  }
}
