/** Executing a plan: steps in plan order, retries, skipping, cancellation, and the run's final verdict. */
module Execution {
  import opened Outcomes
  import opened Documents
  import opened Metering
  import opened Plans

  datatype ErrorClass = Transient | RateLimited | Permanent | ContentPolicy | Interrupted

  datatype Fault = Fault(cls: ErrorClass, code: string)

  datatype StepStatus = Queued | Running | Retrying | Succeeded | Failed | Skipped | Canceled

  predicate Terminal(s: StepStatus) {
    s == Succeeded || s == Failed || s == Skipped || s == Canceled
  }

  datatype Attempt = Attempt(index: nat, status: StepStatus, error: Option<Fault>, usage: Usage)

  datatype Step = Step(id: string, nodeId: string, status: StepStatus, dependsOn: seq<string>,
                       attempts: seq<Attempt>, error: Option<Fault>)

  datatype RunStatus = RunPending | RunRunning | RunSucceeded | RunFailed | RunCanceled | RunPartial

  datatype Event = Started(id: string) | Retried(id: string) | StepDone(id: string) | StepFailed(id: string) | Finished(status: RunStatus)

  /** What one call of a provider comes to: an error, or an answer that may still fail to be stored. */
  datatype Reply = Refusal(fault: Fault) | Answer(usage: Usage, storing: Option<Fault>)

  /** Everything outside the engine, by step ID and attempt number. */
  datatype World = World(
    resolves: string -> bool,
    inputs: string -> Option<Fault>,
    reply: (string, nat) -> Reply,
    pricing: string -> Pricing,
    pause: (nat, Fault) -> nat,
    canceledFirst: bool,
    canceledInPause: (string, nat) -> bool,
    canceledAt: string -> bool)

  // ---------------------------------------------------------------- retries

  predicate ShouldRetry(max: int, attempt: nat, f: Fault) {
    attempt < max && (f.cls == Transient || f.cls == RateLimited)
  }

  /** How long to wait before the next attempt; zero is no next attempt. */
  function Backoff(w: World, max: int, attempt: nat, f: Fault): nat {
    if ShouldRetry(max, attempt, f) then w.pause(attempt, f) else 0
  }

  datatype End = Done | Broken(fault: Fault) | Stopped

  datatype Played = Played(attempts: seq<Attempt>, events: seq<Event>, end: End)

  /** The attempts of a step from number `k` on. */
  function Tries(w: World, max: int, id: string, k: nat): Played
    decreases if k < max then max - k else 0
  {
    match w.reply(id, k)
    case Answer(_, Some(f)) => Played([], [], Broken(f))
    case Answer(u, None) => Played([Attempt(k, Succeeded, None, ApplyCost(w.pricing(id), u))], [StepDone(id)], Done)
    case Refusal(f) =>
      var a := Attempt(k, Failed, Some(f), NoUsage);
      if Backoff(w, max, k, f) == 0 then Played([a], [], Broken(f))
      else if w.canceledInPause(id, k) then Played([a], [Retried(id)], Stopped)
      else
        var rest := Tries(w, max, id, k + 1);
        Played([a] + rest.attempts, [Retried(id)] + rest.events, rest.end)
  }

  const NoChannel := Fault(Permanent, "invalid_request")

  function Play(w: World, max: int, id: string): Played {
    if !w.resolves(id) then Played([], [Started(id)], Broken(NoChannel))
    else if w.inputs(id).Some? then Played([], [Started(id)], Broken(w.inputs(id).value))
    else
      var t := Tries(w, max, id, 1);
      t.(events := [Started(id)] + t.events)
  }

  /** A step is tried at most `max` times (at least once), only after retryable errors, and only its last try can succeed. */
  lemma {:induction false} TriesAreBounded(w: World, max: int, id: string, k: nat)
    ensures var t := Tries(w, max, id, k);
            && (forall i :: 0 <= i < |t.attempts| ==> t.attempts[i].index == k + i)
            && (forall i :: 0 <= i < |t.attempts| - 1 ==>
                  t.attempts[i].error.Some? && ShouldRetry(max, k + i, t.attempts[i].error.value))
            && (forall i :: 0 <= i < |t.attempts| ==> (t.attempts[i].status == Succeeded <==> t.end.Done? && i == |t.attempts| - 1))
            && (t.end.Done? ==> t.attempts != [])
            && (|t.attempts| <= 1 || k + |t.attempts| - 1 <= max)
    decreases if k < max then max - k else 0
  {
    match w.reply(id, k)
    case Answer(_, _) =>
    case Refusal(f) =>
      if Backoff(w, max, k, f) > 0 && !w.canceledInPause(id, k) {
        TriesAreBounded(w, max, id, k + 1);
        var t, rest := Tries(w, max, id, k), Tries(w, max, id, k + 1);
        forall i | 0 <= i < |t.attempts|
          ensures t.attempts[i].index == k + i
          ensures i < |t.attempts| - 1 ==> t.attempts[i].error.Some? && ShouldRetry(max, k + i, t.attempts[i].error.value)
          ensures t.attempts[i].status == Succeeded <==> t.end.Done? && i == |t.attempts| - 1
        {
          if i > 0 {
            assert t.attempts[i] == rest.attempts[i - 1];
          }
        }
      }
  }

  // ---------------------------------------------------------------- steps and their dependencies

  /** The executable nodes feeding a node, one per edge. */
  function ExecutableSources(d: Doc, es: seq<Edge>): seq<string> {
    if es == [] then []
    else
      var n := |es| - 1;
      var from := es[n].from.nodeId;
      ExecutableSources(d, es[..n]) + if from in d.nodes && Executable(d.nodes[from]) then [d.nodes[from].id] else []
  }

  function DependsOnNodes(d: Doc, nodeId: string): seq<string> {
    ExecutableSources(d, UpstreamOf(d.edges, nodeId))
  }

  predicate PlanHas(plan: seq<PlanStep>, nodeId: string) {
    exists i :: 0 <= i < |plan| && plan[i].nodeId == nodeId
  }

  /** A plan names each node and each step once. */
  ghost predicate DistinctPlan(plan: seq<PlanStep>) {
    && (forall i, j :: 0 <= i < j < |plan| ==> plan[i].nodeId != plan[j].nodeId)
    && (forall i, j :: 0 <= i < j < |plan| ==> plan[i].id != plan[j].id)
  }

  ghost function IndexOfNode(plan: seq<PlanStep>, nodeId: string): (i: nat)
    requires PlanHas(plan, nodeId)
    ensures i < |plan| && plan[i].nodeId == nodeId
  {
    var i :| 0 <= i < |plan| && plan[i].nodeId == nodeId;
    i
  }

  /** The planned steps of some nodes, leaving out the step itself. */
  ghost function Linked(plan: seq<PlanStep>, self: string, nodes: seq<string>): seq<string> {
    if nodes == [] then []
    else
      var n := |nodes| - 1;
      Linked(plan, self, nodes[..n]) +
      if PlanHas(plan, nodes[n]) && plan[IndexOfNode(plan, nodes[n])].id != self then [plan[IndexOfNode(plan, nodes[n])].id] else []
  }

  ghost function InitialStep(d: Doc, plan: seq<PlanStep>, ps: PlanStep): Step {
    Step(ps.id, ps.nodeId, Queued, ps.dependsOn + Linked(plan, ps.id, DependsOnNodes(d, ps.nodeId)), [], None)
  }

  ghost function Initial(d: Doc, plan: seq<PlanStep>): seq<Step> {
    seq(|plan|, i requires 0 <= i < |plan| => InitialStep(d, plan, plan[i]))
  }

  /** Every dependency that is a step of this run has succeeded; others are taken as satisfied. */
  predicate DepsSatisfied(steps: seq<Step>, dependsOn: seq<string>) {
    forall k, j :: 0 <= k < |dependsOn| && 0 <= j < |steps| && steps[j].id == dependsOn[k] ==> steps[j].status == Succeeded
  }

  // ---------------------------------------------------------------- a run, step by step

  function Settle(s: Step, p: Played): Step {
    match p.end
    case Done => s.(attempts := p.attempts, status := Succeeded)
    case Broken(f) => s.(attempts := p.attempts, status := Failed, error := Some(f))
    case Stopped => s.(attempts := p.attempts, status := Canceled)
  }

  function Visit(w: World, max: int, steps: seq<Step>, i: nat): Step
    requires i < |steps|
  {
    if DepsSatisfied(steps, steps[i].dependsOn) then Settle(steps[i], Play(w, max, steps[i].id))
    else steps[i].(status := Skipped)
  }

  function VisitEvents(w: World, max: int, steps: seq<Step>, i: nat): seq<Event>
    requires i < |steps|
  {
    if DepsSatisfied(steps, steps[i].dependsOn) then
      var p := Play(w, max, steps[i].id);
      p.events + if p.end.Broken? then [StepFailed(steps[i].id)] else []
    else []
  }

  /** The steps once the first `n` have been dealt with. */
  function After(w: World, max: int, start: seq<Step>, n: nat): (r: seq<Step>)
    requires n <= |start|
    ensures |r| == |start| && forall i :: n <= i < |start| ==> r[i] == start[i]
  {
    if n == 0 then start
    else
      var s := After(w, max, start, n - 1);
      s[n - 1 := Visit(w, max, s, n - 1)]
  }

  function EventsAfter(w: World, max: int, start: seq<Step>, n: nat): seq<Event>
    requires n <= |start|
  {
    if n == 0 then []
    else EventsAfter(w, max, start, n - 1) + VisitEvents(w, max, After(w, max, start, n - 1), n - 1)
  }

  /** Cancellation is noticed while waiting to retry, or once a step has failed. */
  predicate CancelsAt(w: World, max: int, start: seq<Step>, i: nat)
    requires i < |start|
  {
    var s := After(w, max, start, i);
    DepsSatisfied(s, s[i].dependsOn)
    && var p := Play(w, max, s[i].id);
       p.end.Stopped? || (p.end.Broken? && w.canceledAt(s[i].id))
  }

  predicate NeverCanceled(w: World, max: int, start: seq<Step>) {
    !w.canceledFirst && forall i :: 0 <= i < |start| ==> !CancelsAt(w, max, start, i)
  }

  function Halt(s: Step): Step {
    if s.status == Succeeded || s.status == Failed then s else s.(status := Canceled)
  }

  function HaltAll(steps: seq<Step>): seq<Step> {
    seq(|steps|, i requires 0 <= i < |steps| => Halt(steps[i]))
  }

  /** The step at which cancellation is noticed: failed if it had no channel, otherwise canceled. */
  function Caught(w: World, max: int, s: Step): Step {
    s.(attempts := Play(w, max, s.id).attempts, status := if w.resolves(s.id) then Canceled else Failed)
  }

  /** The steps of a run canceled at step `i`. */
  function CanceledSteps(w: World, max: int, start: seq<Step>, i: nat): seq<Step>
    requires i < |start|
  {
    var s := After(w, max, start, i);
    HaltAll(s[i := Caught(w, max, s[i])])
  }

  function CountOf(steps: seq<Step>, status: StepStatus): nat {
    if steps == [] then 0
    else CountOf(steps[..|steps| - 1], status) + if steps[|steps| - 1].status == status then 1 else 0
  }

  function Verdict(steps: seq<Step>): RunStatus {
    if CountOf(steps, Failed) > 0 && CountOf(steps, Succeeded) == 0 then RunFailed
    else if CountOf(steps, Failed) > 0 then RunPartial
    else RunSucceeded
  }

  function FirstFault(steps: seq<Step>): Option<Fault> {
    if steps == [] then None
    else if steps[0].status == Failed && steps[0].error.Some? then steps[0].error
    else FirstFault(steps[1..])
  }

  function AttemptUsage(attempts: seq<Attempt>): Usage {
    if attempts == [] then NoUsage else Add(AttemptUsage(attempts[..|attempts| - 1]), attempts[|attempts| - 1].usage)
  }

  function TotalUsage(steps: seq<Step>): Usage {
    if steps == [] then NoUsage else Add(TotalUsage(steps[..|steps| - 1]), AttemptUsage(steps[|steps| - 1].attempts))
  }

  /** Where a run is canceled: the first step at which cancellation is noticed. */
  ghost predicate FirstCancel(w: World, max: int, start: seq<Step>, i: nat) {
    i < |start| && CancelsAt(w, max, start, i) && forall j :: 0 <= j < i ==> !CancelsAt(w, max, start, j)
  }

  /** The events up to the cancellation at step `i`: those of the steps before it, and what the step itself did. */
  function CanceledEvents(w: World, max: int, start: seq<Step>, i: nat): seq<Event>
    requires i < |start|
  {
    EventsAfter(w, max, start, i) + Play(w, max, start[i].id).events
  }

  datatype Result = Fine | WasCanceled | FailedWith(error: Option<Fault>)

  function Tried(s: Step, attempts: seq<Attempt>, status: StepStatus): Step {
    s.(attempts := attempts, status := status)
  }

  /** How running a step leaves its status, before the run reacts to a failure. */
  predicate LeftAs(w: World, id: string, end: End, status: StepStatus) {
    if end.Done? then status == Succeeded
    else if w.resolves(id) then status == Running || status == Retrying
    else status == Failed
  }

  ghost function Joined(tried: seq<Attempt>, noted: seq<Event>, rest: Played): Played {
    Played(tried + rest.attempts, noted + rest.events, rest.end)
  }

  lemma JoinedNothing(all: Played)
    ensures Joined([], [], all) == all
  {
  }

  lemma NothingTried(s: Step)
    requires s.attempts == []
    ensures forall status :: Tried(s, [], status).status == status && Tried(s, [], status) == s.(status := status)
  {
  }

  lemma TriedStatus(s: Step, attempts: seq<Attempt>, status: StepStatus)
    ensures Tried(s, attempts, status).status == status
  {
  }

  lemma PlayIsTries(w: World, max: int, id: string)
    ensures Play(w, max, id) ==
            if !w.resolves(id) then Played([], [Started(id)], Broken(NoChannel))
            else if w.inputs(id).Some? then Played([], [Started(id)], Broken(w.inputs(id).value))
            else Played(Tries(w, max, id, 1).attempts, [Started(id)] + Tries(w, max, id, 1).events, Tries(w, max, id, 1).end)
  {
  }

  lemma UnfoldTries(w: World, max: int, id: string, k: nat, tried: seq<Attempt>, noted: seq<Event>, all: Played)
    requires all == Joined(tried, noted, Tries(w, max, id, k))
    ensures match w.reply(id, k)
            case Answer(_, Some(f)) => all == Played(tried, noted, Broken(f))
            case Answer(u, None) =>
              all == Played(tried + [Attempt(k, Succeeded, None, ApplyCost(w.pricing(id), u))], noted + [StepDone(id)], Done)
            case Refusal(f) =>
              var more := tried + [Attempt(k, Failed, Some(f), NoUsage)];
              if Backoff(w, max, k, f) == 0 then all == Played(more, noted, Broken(f))
              else if w.canceledInPause(id, k) then all == Played(more, noted + [Retried(id)], Stopped)
              else all == Joined(more, noted + [Retried(id)], Tries(w, max, id, k + 1))
  {
    hide Backoff, ApplyCost;
  }

  lemma BackoffMeansRetry(w: World, max: int, attempt: nat, f: Fault)
    ensures Backoff(w, max, attempt, f) > 0 ==> attempt < max
  {
  }

  /** Building the steps of a run. */
  lemma NextSource(d: Doc, es: seq<Edge>, k: nat)
    requires k < |es|
    ensures ExecutableSources(d, es[..k + 1]) == ExecutableSources(d, es[..k])
              + if es[k].from.nodeId in d.nodes && Executable(d.nodes[es[k].from.nodeId]) then [d.nodes[es[k].from.nodeId].id] else []
  {
    assert es[..k + 1][..k] == es[..k];
  }

  method DependsOn(d: Doc, nodeId: string) returns (r: seq<string>)
    ensures r == DependsOnNodes(d, nodeId)
  {
    hide UpstreamOf, Executable;
    var es := UpstreamOf(d.edges, nodeId);
    r := [];
    for k := 0 to |es|
      invariant r == ExecutableSources(d, es[..k])
    {
      NextSource(d, es, k);
      var from := es[k].from.nodeId;
      if from in d.nodes {
        if Executable(d.nodes[from]) {
          r := r + [d.nodes[from].id];
        }
      }
    }
    assert es[..|es|] == es;
  }

  /** The step of each node; in a plan that names each node once, the step made from it. */
  ghost predicate ByNode(plan: seq<PlanStep>, byNode: map<string, nat>) {
    && (forall x :: x in byNode <==> PlanHas(plan, x))
    && (forall x :: x in byNode ==> byNode[x] < |plan| && plan[byNode[x]].nodeId == x)
  }

  method IndexNodes(plan: seq<PlanStep>) returns (byNode: map<string, nat>)
    ensures ByNode(plan, byNode)
  {
    byNode := map[];
    for i := 0 to |plan|
      invariant forall x :: x in byNode <==> PlanHas(plan[..i], x)
      invariant forall x :: x in byNode ==> byNode[x] < i && plan[byNode[x]].nodeId == x
    {
      assert forall x :: PlanHas(plan[..i + 1], x) <==> PlanHas(plan[..i], x) || x == plan[i].nodeId by {
        assert plan[..i + 1] == plan[..i] + [plan[i]];
        forall x
          ensures PlanHas(plan[..i + 1], x) <==> PlanHas(plan[..i], x) || x == plan[i].nodeId
        {
          assert plan[..i + 1][i] == plan[i];
          assert forall k :: 0 <= k < i ==> plan[..i + 1][k] == plan[..i][k];
        }
      }
      byNode := byNode[plan[i].nodeId := i];
    }
    assert plan[..|plan|] == plan;
  }

  lemma ByNodeIsIndex(plan: seq<PlanStep>, byNode: map<string, nat>, x: string)
    requires DistinctPlan(plan) && ByNode(plan, byNode) && x in byNode
    ensures PlanHas(plan, x) && byNode[x] == IndexOfNode(plan, x)
  {
  }

  lemma NextLinked(plan: seq<PlanStep>, self: string, nodes: seq<string>, k: nat)
    requires k < |nodes|
    ensures Linked(plan, self, nodes[..k + 1]) == Linked(plan, self, nodes[..k])
              + if PlanHas(plan, nodes[k]) && plan[IndexOfNode(plan, nodes[k])].id != self then [plan[IndexOfNode(plan, nodes[k])].id] else []
  {
    assert nodes[..k + 1][..k] == nodes[..k];
  }

  lemma NoneLinked(plan: seq<PlanStep>, self: string)
    ensures Linked(plan, self, []) == []
  {
  }

  /** The dependencies of a step: those it declares, then the planned steps of the executable nodes feeding its node. */
  method Dependencies(d: Doc, plan: seq<PlanStep>, byNode: map<string, nat>, ps: PlanStep) returns (r: seq<string>)
    requires DistinctPlan(plan) && ByNode(plan, byNode)
    ensures r == InitialStep(d, plan, ps).dependsOn
  {
    hide DistinctPlan, ByNode, DependsOnNodes, Linked, IndexOfNode, PlanHas;
    var nodes := DependsOn(d, ps.nodeId);
    r := ps.dependsOn;
    NoneLinked(plan, ps.id);
    for k := 0 to |nodes|
      invariant r == ps.dependsOn + Linked(plan, ps.id, nodes[..k])
    {
      NextLinked(plan, ps.id, nodes, k);
      InByNode(plan, byNode, nodes[k]);
      if nodes[k] in byNode {
        ByNodeIsIndex(plan, byNode, nodes[k]);
        if plan[byNode[nodes[k]]].id != ps.id {
          r := r + [plan[byNode[nodes[k]]].id];
        }
      }
    }
    assert nodes[..|nodes|] == nodes;
  }

  lemma InByNode(plan: seq<PlanStep>, byNode: map<string, nat>, x: string)
    requires ByNode(plan, byNode)
    ensures x in byNode <==> PlanHas(plan, x)
    ensures x in byNode ==> byNode[x] < |plan|
  {
  }

  /** Whether the steps of a run are those of a plan. */
  ghost predicate SameSteps(plan: seq<PlanStep>, steps: seq<Step>) {
    |steps| == |plan| && forall i :: 0 <= i < |plan| ==> steps[i].id == plan[i].id && steps[i].nodeId == plan[i].nodeId
  }

  /** Looks for the step with an ID among those indexed by node, in no particular order. */
  method FindStep(steps: seq<Step>, byNode: map<string, nat>, id: string) returns (r: Option<nat>)
    requires forall x :: x in byNode ==> byNode[x] < |steps|
    ensures r.Some? ==> r.value < |steps| && steps[r.value].id == id
    ensures r.None? ==> forall x :: x in byNode ==> steps[byNode[x]].id != id
  {
    var rest := byNode.Keys;
    while rest != {}
      invariant rest <= byNode.Keys && forall x :: x in byNode && x !in rest ==> steps[byNode[x]].id != id
    {
      var x :| x in rest;
      if steps[byNode[x]].id == id {
        return Some(byNode[x]);
      }
      rest := rest - {x};
    }
    return None;
  }

  method CheckDependencies(ghost plan: seq<PlanStep>, steps: seq<Step>, byNode: map<string, nat>,
                           dependsOn: seq<string>) returns (ok: bool)
    requires DistinctPlan(plan) && ByNode(plan, byNode) && SameSteps(plan, steps)
    ensures ok <==> DepsSatisfied(steps, dependsOn)
  {
    for k := 0 to |dependsOn|
      invariant DepsSatisfied(steps, dependsOn[..k])
    {
      var found := FindStep(steps, byNode, dependsOn[k]);
      AllIndexed(plan, steps, byNode);
      if found.Some? && steps[found.value].status != Succeeded {
        return false;
      }
    }
    assert dependsOn[..|dependsOn|] == dependsOn;
    return true;
  }

  lemma AllIndexed(plan: seq<PlanStep>, steps: seq<Step>, byNode: map<string, nat>)
    requires DistinctPlan(plan) && ByNode(plan, byNode) && SameSteps(plan, steps)
    ensures forall j :: 0 <= j < |steps| ==> steps[j].nodeId in byNode && byNode[steps[j].nodeId] == j
    ensures forall i, j :: 0 <= i < j < |steps| ==> steps[i].id != steps[j].id
  {
    forall j | 0 <= j < |steps|
      ensures steps[j].nodeId in byNode && byNode[steps[j].nodeId] == j
    {
      assert plan[j].nodeId == steps[j].nodeId;
      assert PlanHas(plan, steps[j].nodeId);
    }
  }

  lemma {:induction false} NoFailureNoFault(steps: seq<Step>)
    requires CountOf(steps, Failed) == 0
    ensures FirstFault(steps) == None
  {
    CountIsZero(steps, Failed);
    AllUnfailed(steps);
  }

  lemma {:induction false} AllUnfailed(steps: seq<Step>)
    requires forall i :: 0 <= i < |steps| ==> steps[i].status != Failed
    ensures FirstFault(steps) == None
  {
    if steps != [] {
      AllUnfailed(steps[1..]);
    }
  }

  lemma {:induction false} CountIsZero(steps: seq<Step>, status: StepStatus)
    ensures CountOf(steps, status) == 0 <==> forall i :: 0 <= i < |steps| ==> steps[i].status != status
  {
    if steps != [] {
      CountIsZero(steps[..|steps| - 1], status);
    }
  }

  lemma InitialStepIs(d: Doc, plan: seq<PlanStep>, ps: PlanStep)
    ensures var s := InitialStep(d, plan, ps);
            s == Step(ps.id, ps.nodeId, Queued, ps.dependsOn, [], None).(dependsOn := s.dependsOn)
  {
  }

  lemma NothingAfter(w: World, max: int, start: seq<Step>)
    ensures After(w, max, start, 0) == start && EventsAfter(w, max, start, 0) == []
  {
  }

  lemma NextStep(w: World, max: int, start: seq<Step>, i: nat)
    requires i < |start|
    ensures var s := After(w, max, start, i);
            && After(w, max, start, i + 1) == s[i := Visit(w, max, s, i)]
            && EventsAfter(w, max, start, i + 1) == EventsAfter(w, max, start, i) + VisitEvents(w, max, s, i)
            && (CancelsAt(w, max, start, i) <==>
                  DepsSatisfied(s, s[i].dependsOn)
                  && var p := Play(w, max, s[i].id);
                     p.end.Stopped? || (p.end.Broken? && w.canceledAt(s[i].id)))
  {
    hide Visit, VisitEvents, Play, DepsSatisfied;
  }

  lemma SkipStep(w: World, max: int, start: seq<Step>, i: nat)
    requires i < |start| && !DepsSatisfied(After(w, max, start, i), After(w, max, start, i)[i].dependsOn)
    ensures var s := After(w, max, start, i);
            Visit(w, max, s, i) == s[i].(status := Skipped) && VisitEvents(w, max, s, i) == []
  {
    hide DepsSatisfied, Play, After;
  }

  lemma VisitKeepsNames(w: World, max: int, s: seq<Step>, i: nat)
    requires i < |s|
    ensures var v := Visit(w, max, s, i);
            v.id == s[i].id && v.nodeId == s[i].nodeId && v.dependsOn == s[i].dependsOn && Terminal(v.status)
  {
    hide DepsSatisfied, Play;
  }

  lemma {:induction false} NamesThroughout(w: World, max: int, start: seq<Step>, n: nat)
    requires n <= |start|
    ensures var s := After(w, max, start, n);
            forall i :: 0 <= i < |start| ==> s[i].id == start[i].id && s[i].nodeId == start[i].nodeId && s[i].dependsOn == start[i].dependsOn
  {
    hide Visit;
    if n > 0 {
      NamesThroughout(w, max, start, n - 1);
      VisitKeepsNames(w, max, After(w, max, start, n - 1), n - 1);
    }
  }

  lemma SameThroughout(w: World, max: int, d: Doc, plan: seq<PlanStep>, n: nat)
    requires n < |plan|
    ensures SameSteps(plan, After(w, max, Initial(d, plan), n)) && After(w, max, Initial(d, plan), n)[n].attempts == []
  {
    hide After;
    NamesThroughout(w, max, Initial(d, plan), n);
  }

  lemma HaltCaught(w: World, max: int, start: seq<Step>, i: nat, steps: seq<Step>)
    requires i < |start| && |steps| == |start|
    requires var s := After(w, max, start, i);
             var p := Play(w, max, s[i].id);
             !p.end.Done? && steps == s[i := Tried(s[i], p.attempts, steps[i].status)] && LeftAs(w, s[i].id, p.end, steps[i].status)
    ensures HaltAll(steps) == CanceledSteps(w, max, start, i)
  {
    hide Play, After;
  }

  lemma CanceledEventsAre(w: World, max: int, start: seq<Step>, i: nat)
    requires i < |start|
    ensures CanceledEvents(w, max, start, i) == EventsAfter(w, max, start, i) + Play(w, max, After(w, max, start, i)[i].id).events
  {
    hide Play, EventsAfter;
  }

  lemma NoneUsed()
    ensures TotalUsage([]) == NoUsage && AttemptUsage([]) == NoUsage && forall u :: Add(u, NoUsage) == u
  {
  }

  lemma NextAttemptUsage(before: Usage, attempts: seq<Attempt>, j: nat)
    requires j < |attempts|
    ensures Add(before, AttemptUsage(attempts[..j + 1])) == Add(Add(before, AttemptUsage(attempts[..j])), attempts[j].usage)
  {
    assert attempts[..j + 1][..j] == attempts[..j];
  }

  lemma NextTotalUsage(steps: seq<Step>, i: nat)
    requires i < |steps|
    ensures TotalUsage(steps[..i + 1]) == Add(TotalUsage(steps[..i]), AttemptUsage(steps[i].attempts))
  {
    assert steps[..i + 1][..i] == steps[..i];
  }

  class Run {
    var status: RunStatus
    var steps: seq<Step>
    var usage: Usage
    var error: Option<Fault>
    var events: seq<Event>

    constructor ()
      ensures status == RunPending && steps == [] && usage == NoUsage && error == None && events == []
    {
      status, steps, usage, error, events := RunPending, [], NoUsage, None, [];
    }

    /** Runs one step: its channel, its inputs, then attempts until one succeeds or no retry is due. */
    method RunStep(w: World, max: int, i: nat) returns (end: End)
      requires i < |steps| && steps[i].attempts == []
      modifies this`steps, this`events
      ensures |steps| == |old(steps)|
      ensures var was := old(steps[i]);
              var p := Play(w, max, was.id);
              && end == p.end && events == old(events) + p.events
              && steps == old(steps)[i := Tried(was, p.attempts, steps[i].status)]
              && LeftAs(w, was.id, end, steps[i].status)
    {
      hide Tries, Tried, Play;
      var was := steps[i];
      var id := was.id;
      PlayIsTries(w, max, id);
      NothingTried(was);
      steps := steps[i := Tried(was, [], Running)];
      events := events + [Started(id)];
      if !w.resolves(id) {
        steps := steps[i := Tried(was, [], Failed)];
        return Broken(NoChannel);
      }
      if w.inputs(id).Some? {
        return Broken(w.inputs(id).value);
      }
      end := TryAll(w, max, i, was);
    }

    /** The attempts of a step that has its channel and inputs. */
    method TryAll(w: World, max: int, i: nat, was: Step) returns (end: End)
      requires i < |steps| && steps[i] == Tried(was, [], Running) && w.resolves(was.id)
      modifies this`steps, this`events
      ensures |steps| == |old(steps)|
      ensures var p := Tries(w, max, was.id, 1);
              && end == p.end && events == old(events) + p.events
              && steps == old(steps)[i := Tried(was, p.attempts, steps[i].status)]
              && LeftAs(w, was.id, end, steps[i].status)
    {
      hide Tries, Tried, Backoff;
      var id := was.id;
      ghost var all := Tries(w, max, id, 1);
      var attempt := 1;
      var tried: seq<Attempt> := [];
      var status := Running;
      ghost var noted: seq<Event> := [];
      JoinedNothing(all);
      TriedStatus(was, tried, status);
      while true
        invariant attempt >= 1 && steps == old(steps)[i := Tried(was, tried, status)] && status in {Running, Retrying}
        invariant events == old(events) + noted && all == Joined(tried, noted, Tries(w, max, id, attempt))
        decreases if attempt < max then max - attempt else 0
      {
        UnfoldTries(w, max, id, attempt, tried, noted, all);
        match w.reply(id, attempt) {
          case Answer(_, Some(f)) =>
            TriedStatus(was, tried, status);
            return Broken(f);
          case Answer(u, None) =>
            tried := tried + [Attempt(attempt, Succeeded, None, ApplyCost(w.pricing(id), u))];
            steps := steps[i := Tried(was, tried, Succeeded)];
            TriedStatus(was, tried, Succeeded);
            events := events + [StepDone(id)];
            return Done;
          case Refusal(f) =>
            tried := tried + [Attempt(attempt, Failed, Some(f), NoUsage)];
            steps := steps[i := Tried(was, tried, status)];
            TriedStatus(was, tried, status);
            BackoffMeansRetry(w, max, attempt, f);
            if Backoff(w, max, attempt, f) == 0 {
              return Broken(f);
            }
            status := Retrying;
            steps := steps[i := Tried(was, tried, status)];
            TriedStatus(was, tried, status);
            events, noted := events + [Retried(id)], noted + [Retried(id)];
            if w.canceledInPause(id, attempt) {
              return Stopped;
            }
            attempt := attempt + 1;
        }
      }
    }

    /** Everything not already decided becomes canceled. */
    method MarkCanceled()
      modifies this`steps
      ensures steps == HaltAll(old(steps))
    {
      for i := 0 to |steps|
        invariant |steps| == |old(steps)|
        invariant forall k :: 0 <= k < i ==> steps[k] == Halt(old(steps)[k])
        invariant forall k :: i <= k < |steps| ==> steps[k] == old(steps)[k]
      {
        if steps[i].status != Succeeded && steps[i].status != Failed {
          steps := steps[i := steps[i].(status := Canceled)];
        }
      }
    }

    /** Sums the usage of every attempt of every step. */
    method RecomputeUsage()
      modifies this`usage
      ensures usage == TotalUsage(steps)
    {
      hide Add, AttemptUsage, TotalUsage;
      var u := NoUsage;
      NoneUsed();
      for i := 0 to |steps|
        invariant u == TotalUsage(steps[..i])
      {
        var attempts := steps[i].attempts;
        ghost var before := u;
        for j := 0 to |attempts|
          invariant u == Add(before, AttemptUsage(attempts[..j]))
        {
          NextAttemptUsage(before, attempts, j);
          u := Add(u, attempts[j].usage);
        }
        assert attempts[..|attempts|] == attempts;
        NextTotalUsage(steps, i);
      }
      assert steps[..|steps|] == steps;
      usage := u;
    }

    method FinishRun(verdict: RunStatus, err: Option<Fault>)
      modifies this`status, this`error, this`usage, this`events
      ensures status == verdict && error == err && usage == TotalUsage(steps) && events == old(events) + [Finished(verdict)]
    {
      status, error := verdict, err;
      RecomputeUsage();
      events := events + [Finished(verdict)];
    }

    /** The run's verdict, and the first error to show when something failed. */
    method Summarize() returns (verdict: RunStatus, err: Option<Fault>)
      ensures verdict == Verdict(steps) && err == FirstFault(steps)
    {
      var failed, succeeded := 0, 0;
      for i := 0 to |steps|
        invariant failed == CountOf(steps[..i], Failed) && succeeded == CountOf(steps[..i], Succeeded)
      {
        assert steps[..i + 1][..i] == steps[..i];
        match steps[i].status {
          case Failed => failed := failed + 1;
          case Succeeded => succeeded := succeeded + 1;
          case _ =>
        }
      }
      assert steps[..|steps|] == steps;
      verdict := if failed > 0 && succeeded == 0 then RunFailed else if failed > 0 then RunPartial else RunSucceeded;
      err := None;
      if failed > 0 {
        for i := 0 to |steps|
          invariant FirstFault(steps) == FirstFault(steps[i..])
        {
          if steps[i].status == Failed && steps[i].error.Some? {
            return verdict, steps[i].error;
          }
        }
      } else {
        NoFailureNoFault(steps);
      }
    }

    /** Creates the steps of the run from the plan and links them to the steps they wait for. */
    method BuildSteps(d: Doc, plan: seq<PlanStep>, byNode: map<string, nat>)
      requires DistinctPlan(plan) && ByNode(plan, byNode)
      modifies this`steps
      ensures steps == Initial(d, plan)
    {
      hide DistinctPlan, ByNode, InitialStep;
      steps := [];
      for i := 0 to |plan|
        invariant |steps| == i && forall k :: 0 <= k < i ==> steps[k] == Step(plan[k].id, plan[k].nodeId, Queued, plan[k].dependsOn, [], None)
      {
        steps := steps + [Step(plan[i].id, plan[i].nodeId, Queued, plan[i].dependsOn, [], None)];
      }
      for i := 0 to |plan|
        invariant |steps| == |plan|
        invariant forall k :: 0 <= k < i ==> steps[k] == InitialStep(d, plan, plan[k])
        invariant forall k :: i <= k < |plan| ==> steps[k] == Step(plan[k].id, plan[k].nodeId, Queued, plan[k].dependsOn, [], None)
      {
        var deps := Dependencies(d, plan, byNode, plan[i]);
        InitialStepIs(d, plan, plan[i]);
        steps := steps[i := steps[i].(dependsOn := deps)];
      }
    }

    /** Deals with one step that is due; false when cancellation was noticed. */
    method DoStep(w: World, max: int, i: nat) returns (ok: bool)
      requires i < |steps| && steps[i].attempts == [] && DepsSatisfied(steps, steps[i].dependsOn)
      modifies this`steps, this`events
      ensures |steps| == |old(steps)|
      ensures var was := old(steps[i]);
              var p := Play(w, max, was.id);
              && (!ok <==> p.end.Stopped? || (p.end.Broken? && w.canceledAt(was.id)))
              && (ok ==> steps == old(steps)[i := Visit(w, max, old(steps), i)] && events == old(events) + VisitEvents(w, max, old(steps), i))
              && (!ok ==> steps == old(steps)[i := Tried(was, p.attempts, steps[i].status)] && LeftAs(w, was.id, p.end, steps[i].status)
                          && events == old(events) + p.events)
    {
      hide Play;
      var end := RunStep(w, max, i);
      if end.Done? {
        return true;
      }
      if end.Stopped? || w.canceledAt(steps[i].id) {
        return false;
      }
      steps := steps[i := steps[i].(status := Failed, error := Some(end.fault))];
      events := events + [StepFailed(steps[i].id)];
      return true;
    }

    /** Executes a plan from start to finish. */
    method Execute(w: World, max: int, d: Doc, plan: seq<PlanStep>) returns (r: Result)
      requires DistinctPlan(plan)
      modifies this
      ensures usage == TotalUsage(steps)
      ensures w.canceledFirst ==>
                r == WasCanceled && status == RunCanceled && steps == Initial(d, plan) && events == old(events) + [Finished(RunCanceled)]
      ensures var start := Initial(d, plan);
              !w.canceledFirst && !NeverCanceled(w, max, start) ==>
                && r == WasCanceled && status == RunCanceled
                && exists i :: FirstCancel(w, max, start, i) && steps == CanceledSteps(w, max, start, i)
                          && events == old(events) + CanceledEvents(w, max, start, i) + [Finished(RunCanceled)]
      ensures var start := Initial(d, plan);
              NeverCanceled(w, max, start) ==>
                && steps == After(w, max, start, |plan|) && status == Verdict(steps) && error == FirstFault(steps)
                && events == old(events) + EventsAfter(w, max, start, |plan|) + [Finished(status)]
                && r == if status == RunFailed then FailedWith(error) else Fine
    {
      hide DistinctPlan, ByNode, InitialStep, Visit, VisitEvents, DepsSatisfied, Play, After, EventsAfter,
        CancelsAt, CanceledSteps, CanceledEvents, TotalUsage, SameSteps, Caught, Tried;
      status := RunRunning;
      var byNode := IndexNodes(plan);
      BuildSteps(d, plan, byNode);
      ghost var start := steps;
      if w.canceledFirst {
        FinishRun(RunCanceled, None);
        return WasCanceled;
      }
      NothingAfter(w, max, start);
      for i := 0 to |plan|
        invariant steps == After(w, max, start, i)
        invariant events == old(events) + EventsAfter(w, max, start, i)
        invariant forall j :: 0 <= j < i ==> !CancelsAt(w, max, start, j)
      {
        NextStep(w, max, start, i);
        SameThroughout(w, max, d, plan, i);
        var due := CheckDependencies(plan, steps, byNode, steps[i].dependsOn);
        if !due {
          SkipStep(w, max, start, i);
          steps := steps[i := steps[i].(status := Skipped)];
        } else {
          var ok := DoStep(w, max, i);
          if !ok {
            HaltCaught(w, max, start, i, steps);
            CanceledEventsAre(w, max, start, i);
            MarkCanceled();
            FinishRun(RunCanceled, None);
            return WasCanceled;
          }
        }
      }
      var verdict, err := Summarize();
      FinishRun(verdict, err);
      return if status == RunFailed then FailedWith(error) else Fine;
    }
  }
}
