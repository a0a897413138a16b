/** The topological sort of plan steps, and what it does to the collected list. */
module StepOrder {
  import opened Outcomes
  import opened Ordering
  import opened Digraphs
  import opened Documents
  import opened Plans

  type Arc = (string, string)

  function Ids(steps: seq<PlanStep>): (r: seq<string>)
    ensures |r| == |steps|
  {
    seq(|steps|, i requires 0 <= i < |steps| => steps[i].id)
  }

  ghost function IdSet(steps: seq<PlanStep>): set<string> {
    set s | s in steps :: s.id
  }

  /** The dependencies of one step inside the plan, one arc per mention. */
  ghost function StepArcs(ids: set<string>, id: string, dependsOn: seq<string>): seq<Arc> {
    if dependsOn == [] then []
    else
      var n := |dependsOn| - 1;
      StepArcs(ids, id, dependsOn[..n]) + if dependsOn[n] in ids then [(dependsOn[n], id)] else []
  }

  ghost function Arcs(ids: set<string>, steps: seq<PlanStep>): seq<Arc> {
    if steps == [] then []
    else
      var n := |steps| - 1;
      Arcs(ids, steps[..n]) + StepArcs(ids, steps[n].id, steps[n].dependsOn)
  }

  /** From a step to each step in the plan that depends on it. */
  ghost function DependsGraph(steps: seq<PlanStep>): Digraph<string> {
    set s, d | s in steps && d in s.dependsOn && d in IdSet(steps) :: (d, s.id)
  }

  lemma {:induction false} StepArcsAre(ids: set<string>, id: string, dependsOn: seq<string>, a: Arc)
    ensures a in StepArcs(ids, id, dependsOn) <==> a.1 == id && a.0 in ids && a.0 in dependsOn
  {
    if dependsOn != [] {
      var n := |dependsOn| - 1;
      StepArcsAre(ids, id, dependsOn[..n], a);
      assert dependsOn == dependsOn[..n] + [dependsOn[n]];
    }
  }

  lemma {:induction false} ArcsAre(ids: set<string>, steps: seq<PlanStep>, a: Arc)
    ensures a in Arcs(ids, steps) <==> exists s :: s in steps && a.1 == s.id && a.0 in ids && a.0 in s.dependsOn
  {
    if steps != [] {
      var n := |steps| - 1;
      ArcsAre(ids, steps[..n], a);
      StepArcsAre(ids, steps[n].id, steps[n].dependsOn, a);
      assert steps == steps[..n] + [steps[n]];
    }
  }

  lemma ArcsAreTheGraph(steps: seq<PlanStep>)
    ensures forall a :: a in Arcs(IdSet(steps), steps) <==> a in DependsGraph(steps)
  {
    forall a
      ensures a in Arcs(IdSet(steps), steps) <==> a in DependsGraph(steps)
    {
      ArcsAre(IdSet(steps), steps, a);
    }
  }

  // ---------------------------------------------------------------- counting arcs

  /** The ends of the arcs that start at a step. */
  ghost function Followers(arcs: seq<Arc>, d: string): seq<string> {
    if arcs == [] then []
    else
      var n := |arcs| - 1;
      Followers(arcs[..n], d) + if arcs[n].0 == d then [arcs[n].1] else []
  }

  /** How many arcs lead into a step from steps still to come. */
  ghost function InDegree(arcs: seq<Arc>, live: set<string>, x: string): nat {
    if arcs == [] then 0
    else
      var n := |arcs| - 1;
      InDegree(arcs[..n], live, x) + if arcs[n].1 == x && arcs[n].0 in live then 1 else 0
  }

  lemma FollowersAppend(arcs: seq<Arc>, a: Arc, d: string)
    ensures Followers(arcs + [a], d) == Followers(arcs, d) + if a.0 == d then [a.1] else []
  {
    assert (arcs + [a])[..|arcs|] == arcs;
  }

  lemma InDegreeAppend(arcs: seq<Arc>, a: Arc, live: set<string>, x: string)
    ensures InDegree(arcs + [a], live, x) == InDegree(arcs, live, x) + if a.1 == x && a.0 in live then 1 else 0
  {
    assert (arcs + [a])[..|arcs|] == arcs;
  }

  /** Taking a step out lowers each in-degree by its share of that step's followers. */
  lemma {:induction false} InDegreeDrops(arcs: seq<Arc>, live: set<string>, d: string, x: string)
    requires d in live
    ensures InDegree(arcs, live, x) == InDegree(arcs, live - {d}, x) + multiset(Followers(arcs, d))[x]
  {
    if arcs != [] {
      InDegreeDrops(arcs[..|arcs| - 1], live, d, x);
    }
  }

  lemma {:induction false} InDegreeZero(arcs: seq<Arc>, live: set<string>, x: string)
    ensures InDegree(arcs, live, x) == 0 <==> forall a :: a in arcs && a.1 == x ==> a.0 !in live
  {
    if arcs != [] {
      var n := |arcs| - 1;
      InDegreeZero(arcs[..n], live, x);
      assert arcs == arcs[..n] + [arcs[n]];
    }
  }

  lemma {:induction false} FollowersAre(arcs: seq<Arc>, d: string, x: string)
    ensures x in Followers(arcs, d) <==> (d, x) in arcs
  {
    if arcs != [] {
      var n := |arcs| - 1;
      FollowersAre(arcs[..n], d, x);
      assert arcs == arcs[..n] + [arcs[n]];
    }
  }

  // ---------------------------------------------------------------- the sort

  ghost predicate FollowersKnown(arcs: seq<Arc>, deps: map<string, seq<string>>) {
    forall d :: d in deps ==> deps[d] == Followers(arcs, d)
  }

  /** The count kept for each step: how many arcs still hold it back. */
  ghost predicate Counted(arcs: seq<Arc>, live: set<string>, indeg: map<string, int>) {
    forall x :: x in indeg ==> indeg[x] == InDegree(arcs, live, x)
  }

  /** Every step of the plan, with no followers and nothing holding it back yet. */
  method Zeroed(steps: seq<PlanStep>) returns (deps: map<string, seq<string>>, indeg: map<string, int>)
    ensures deps.Keys == indeg.Keys == IdSet(steps)
    ensures forall d :: d in deps ==> deps[d] == [] && indeg[d] == 0
  {
    deps, indeg := map[], map[];
    for i := 0 to |steps|
      invariant deps.Keys == indeg.Keys == IdSet(steps[..i])
      invariant forall d :: d in deps ==> deps[d] == [] && indeg[d] == 0
    {
      assert steps[..i + 1] == steps[..i] + [steps[i]];
      deps, indeg := deps[steps[i].id := []], indeg[steps[i].id := 0];
    }
    assert steps[..|steps|] == steps;
  }

  method CountArcs(steps: seq<PlanStep>) returns (deps: map<string, seq<string>>, indeg: map<string, int>)
    ensures deps.Keys == indeg.Keys == IdSet(steps)
    ensures FollowersKnown(Arcs(IdSet(steps), steps), deps) && Counted(Arcs(IdSet(steps), steps), IdSet(steps), indeg)
  {
    hide FollowersKnown, Counted, Arcs, StepArcs, IdSet;
    deps, indeg := Zeroed(steps);
    ghost var ids := IdSet(steps);
    ghost var arcs: seq<Arc> := [];
    NoArcs(ids, deps, indeg);
    for i := 0 to |steps|
      invariant deps.Keys == indeg.Keys == ids && arcs == Arcs(ids, steps[..i])
      invariant FollowersKnown(arcs, deps) && Counted(arcs, ids, indeg)
    {
      var s := steps[i];
      InIdSet(steps, i);
      ghost var before := arcs;
      NoStepArcs(ids, s.id);
      for j := 0 to |s.dependsOn|
        invariant deps.Keys == indeg.Keys == ids && arcs == before + StepArcs(ids, s.id, s.dependsOn[..j])
        invariant FollowersKnown(arcs, deps) && Counted(arcs, ids, indeg)
      {
        var d := s.dependsOn[j];
        NextStepArc(ids, s.id, s.dependsOn, j);
        if d in deps {
          AddFollower(arcs, deps, d, s.id);
          AddCount(arcs, ids, indeg, d, s.id);
          deps, indeg := deps[d := deps[d] + [s.id]], indeg[s.id := indeg[s.id] + 1];
          arcs := arcs + [(d, s.id)];
        }
      }
      assert s.dependsOn[..|s.dependsOn|] == s.dependsOn;
      NextArcs(ids, steps, i);
    }
    assert steps[..|steps|] == steps;
  }

  lemma InIdSet(steps: seq<PlanStep>, i: nat)
    requires i < |steps|
    ensures steps[i].id in IdSet(steps)
  {
  }

  lemma NoArcs(ids: set<string>, deps: map<string, seq<string>>, indeg: map<string, int>)
    requires deps.Keys == indeg.Keys && forall d :: d in deps ==> deps[d] == [] && indeg[d] == 0
    ensures Arcs(ids, []) == [] && FollowersKnown([], deps) && Counted([], ids, indeg)
  {
  }

  lemma NoStepArcs(ids: set<string>, id: string)
    ensures StepArcs(ids, id, []) == []
  {
  }

  lemma NextStepArc(ids: set<string>, id: string, dependsOn: seq<string>, j: nat)
    requires j < |dependsOn|
    ensures StepArcs(ids, id, dependsOn[..j + 1]) ==
            StepArcs(ids, id, dependsOn[..j]) + if dependsOn[j] in ids then [(dependsOn[j], id)] else []
  {
    assert dependsOn[..j + 1][..j] == dependsOn[..j];
  }

  lemma NextArcs(ids: set<string>, steps: seq<PlanStep>, i: nat)
    requires i < |steps|
    ensures Arcs(ids, steps[..i + 1]) == Arcs(ids, steps[..i]) + StepArcs(ids, steps[i].id, steps[i].dependsOn)
  {
    assert steps[..i + 1][..i] == steps[..i];
  }

  lemma AddFollower(arcs: seq<Arc>, deps: map<string, seq<string>>, d: string, x: string)
    requires FollowersKnown(arcs, deps) && d in deps
    ensures FollowersKnown(arcs + [(d, x)], deps[d := deps[d] + [x]])
  {
    hide Followers;
    forall y | y in deps
      ensures Followers(arcs + [(d, x)], y) == deps[d := deps[d] + [x]][y]
    {
      FollowersAppend(arcs, (d, x), y);
    }
  }

  lemma AddCount(arcs: seq<Arc>, live: set<string>, indeg: map<string, int>, d: string, x: string)
    requires Counted(arcs, live, indeg) && d in live && x in indeg
    ensures Counted(arcs + [(d, x)], live, indeg[x := indeg[x] + 1])
  {
    hide InDegree;
    forall y | y in indeg
      ensures InDegree(arcs + [(d, x)], live, y) == indeg[x := indeg[x] + 1][y]
    {
      InDegreeAppend(arcs, (d, x), live, y);
    }
  }

  /** The steps nothing in the plan holds back, in ID order. */
  method Free(indeg: map<string, int>) returns (queue: seq<string>)
    ensures queue == SortedElements(set x | x in indeg && indeg[x] == 0)
  {
    var rest := indeg.Keys;
    queue := [];
    while rest != {}
      invariant rest <= indeg.Keys && Distinct(queue)
      invariant forall x :: x in queue <==> x in indeg && x !in rest && indeg[x] == 0
    {
      var x :| x in rest;
      rest := rest - {x};
      if indeg[x] == 0 {
        assert Distinct(queue + [x]) by {
          forall i | 0 <= i < |queue| ensures queue[i] != x {
            assert queue[i] in queue;
          }
        }
        queue := queue + [x];
      }
    }
    ghost var found := queue;
    queue := Sort(queue);
    SortKeepsDistinct(found);
    SortedIsUnique(queue, SortedElements(set x | x in indeg && indeg[x] == 0));
  }

  lemma SortKeepsDistinct(s: seq<string>)
    requires Distinct(s)
    ensures Distinct(Sort(s)) && forall x :: x in Sort(s) <==> x in s
  {
    var r := Sort(s);
    forall x
      ensures x in r <==> x in s
    {
      assert x in r <==> x in multiset(r);
      assert x in s <==> x in multiset(s);
    }
    forall i, j | 0 <= i < j < |r|
      ensures r[i] != r[j]
    {
      if r[i] == r[j] {
        TwiceCounted(r, i, j);
        DistinctCounts(s, r[i]);
      }
    }
  }

  lemma TwiceCounted<T>(r: seq<T>, i: nat, j: nat)
    requires i < j < |r| && r[i] == r[j]
    ensures multiset(r)[r[i]] >= 2
  {
    assert r == r[..i] + [r[i]] + r[i + 1..j] + [r[j]] + r[j + 1..];
    var m := multiset(r[..i]) + multiset([r[i]]) + multiset(r[i + 1..j]) + multiset([r[j]]) + multiset(r[j + 1..]);
    assert multiset(r) == m;
  }

  // ---------------------------------------------------------------- the main loop

  /** Every step already sorted has all its dependencies before it. */
  ghost predicate DependenciesFirst(arcs: seq<Arc>, order: seq<string>) {
    forall i, a :: 0 <= i < |order| && a in arcs && a.1 == order[i] ==> a.0 in order[..i]
  }

  /** A count is zero exactly for the steps sorted or queued, each of which appears once. */
  ghost predicate Zeros(indeg: map<string, int>, order: seq<string>, queue: seq<string>) {
    && Distinct(order + queue)
    && (forall x :: x in queue ==> x in indeg)
    && (forall x :: x in indeg ==> (indeg[x] == 0 <==> x in order || x in queue))
  }

  ghost predicate Remaining(ids: set<string>, live: set<string>, order: seq<string>) {
    forall x :: x in ids <==> x in live || x in order
  }

  /** Counts down the followers of a step and queues those that nothing holds back any more. */
  method Release(next: seq<string>, queue0: seq<string>, indeg0: map<string, int>, ghost order: seq<string>)
    returns (queue: seq<string>, indeg: map<string, int>)
    requires forall x :: x in next ==> x in indeg0
    requires forall x :: x in indeg0 ==> indeg0[x] >= multiset(next)[x]
    requires Zeros(indeg0, order, queue0)
    ensures indeg.Keys == indeg0.Keys && forall x :: x in indeg ==> indeg[x] == indeg0[x] - multiset(next)[x]
    ensures Zeros(indeg, order, queue) && queue0 <= queue
    ensures next == [] ==> queue == queue0
  {
    queue, indeg := queue0, indeg0;
    for k := 0 to |next|
      invariant indeg.Keys == indeg0.Keys && queue0 <= queue
      invariant forall x :: x in indeg ==> indeg[x] == indeg0[x] - multiset(next[..k])[x]
      invariant Zeros(indeg, order, queue)
      invariant k == 0 ==> queue == queue0
    {
      var m := next[k];
      CountSplit(next, k);
      assert m in next && indeg[m] >= 1;
      var before := indeg;
      indeg := indeg[m := indeg[m] - 1];
      if indeg[m] == 0 {
        QueueMore(before, order, queue, m);
        queue := queue + [m];
      }
      assert Zeros(indeg, order, queue);
    }
    assert next[..|next|] == next;
  }

  lemma CountSplit(next: seq<string>, k: nat)
    requires k < |next|
    ensures multiset(next[..k + 1]) == multiset(next[..k]) + multiset{next[k]}
    ensures multiset(next)[next[k]] >= multiset(next[..k + 1])[next[k]]
  {
    assert next[..k + 1] == next[..k] + [next[k]];
    assert next == next[..k + 1] + next[k + 1..];
  }

  lemma QueueMore(indeg: map<string, int>, order: seq<string>, queue: seq<string>, m: string)
    requires Zeros(indeg, order, queue) && m in indeg && indeg[m] == 1
    ensures Zeros(indeg[m := 0], order, queue + [m])
  {
    var all := order + queue;
    assert order + (queue + [m]) == all + [m];
    assert m !in all;
    assert forall x :: x in queue + [m] <==> x in queue || x == m;
  }

  /** Moving the head of the queue to the sorted steps. */
  lemma MoveHead(indeg: map<string, int>, order: seq<string>, queue: seq<string>)
    requires queue != [] && Zeros(indeg, order, queue)
    ensures Zeros(indeg, order + [queue[0]], queue[1..]) && queue[0] !in order
  {
    assert queue == [queue[0]] + queue[1..];
    assert (order + [queue[0]]) + queue[1..] == order + queue;
    assert (order + queue)[|order|] == queue[0];
    assert forall i :: 0 <= i < |order| ==> (order + queue)[i] == order[i];
    assert forall x :: x in order + [queue[0]] <==> x in order || x == queue[0];
    assert forall x :: x in queue <==> x == queue[0] || x in queue[1..];
  }

  lemma HeadIsFree(arcs: seq<Arc>, ids: set<string>, live: set<string>, indeg: map<string, int>,
                   order: seq<string>, id: string)
    requires Counted(arcs, live, indeg) && id in indeg && indeg[id] == 0
    requires (forall a :: a in arcs ==> a.0 in ids) && Remaining(ids, live, order) && DependenciesFirst(arcs, order)
    ensures DependenciesFirst(arcs, order + [id])
  {
    InDegreeZero(arcs, live, id);
    var more := order + [id];
    forall i, a | 0 <= i < |more| && a in arcs && a.1 == more[i]
      ensures a.0 in more[..i]
    {
      if i < |order| {
        assert more[..i] == order[..i];
      } else {
        assert more[..i] == order;
      }
    }
  }

  lemma StepOut(arcs: seq<Arc>, live: set<string>, id: string, deps: map<string, seq<string>>,
                indeg: map<string, int>, next: seq<string>)
    requires Counted(arcs, live, indeg) && FollowersKnown(arcs, deps) && id in live && id in deps
    requires multiset(next) == multiset(deps[id])
    ensures forall x :: x in indeg ==> indeg[x] - multiset(next)[x] == InDegree(arcs, live - {id}, x)
  {
    hide InDegree, Followers;
    forall x | x in indeg
      ensures indeg[x] - multiset(next)[x] == InDegree(arcs, live - {id}, x)
    {
      InDegreeDrops(arcs, live, id, x);
    }
  }

  lemma NextAreSteps(arcs: seq<Arc>, ids: set<string>, deps: map<string, seq<string>>, id: string, next: seq<string>)
    requires FollowersKnown(arcs, deps) && id in deps && multiset(next) == multiset(deps[id])
    requires forall a :: a in arcs ==> a.1 in ids
    ensures forall x :: x in next ==> x in ids
    ensures arcs == [] ==> next == []
  {
    forall x | x in next
      ensures x in ids
    {
      assert x in multiset(next);
      FollowersAre(arcs, id, x);
    }
    if arcs == [] {
      assert |multiset(next)| == 0;
    }
  }

  lemma ArcEnds(steps: seq<PlanStep>)
    ensures forall a :: a in Arcs(IdSet(steps), steps) ==> a.0 in IdSet(steps) && a.1 in IdSet(steps)
  {
    hide Arcs;
    forall a | a in Arcs(IdSet(steps), steps)
      ensures a.0 in IdSet(steps) && a.1 in IdSet(steps)
    {
      ArcsAre(IdSet(steps), steps, a);
    }
  }

  /** The state of the main loop between two steps. */
  ghost predicate Underway(arcs: seq<Arc>, ids: set<string>, live: set<string>, deps: map<string, seq<string>>,
                           indeg: map<string, int>, order: seq<string>, queue: seq<string>)
  {
    && deps.Keys == indeg.Keys == ids && live <= ids && (forall x :: x in live ==> x !in order)
    && FollowersKnown(arcs, deps) && Counted(arcs, live, indeg) && Zeros(indeg, order, queue)
    && Remaining(ids, live, order) && DependenciesFirst(arcs, order)
    && (forall a :: a in arcs ==> a.0 in ids && a.1 in ids)
  }

  lemma Begin(arcs: seq<Arc>, ids: set<string>, deps: map<string, seq<string>>, indeg: map<string, int>,
              queue: seq<string>)
    requires deps.Keys == indeg.Keys == ids && FollowersKnown(arcs, deps) && Counted(arcs, ids, indeg)
    requires forall a :: a in arcs ==> a.0 in ids && a.1 in ids
    requires queue == SortedElements(set x | x in indeg && indeg[x] == 0)
    ensures Underway(arcs, ids, ids, deps, indeg, [], queue)
    ensures arcs == [] ==> queue == SortedElements(ids)
  {
    hide Zeros, Counted, FollowersKnown, SortedElements;
    BeginZeros(indeg, queue);
    if arcs == [] {
      NothingHeldBack(arcs, ids, indeg);
    }
  }

  lemma BeginZeros(indeg: map<string, int>, queue: seq<string>)
    requires queue == SortedElements(set x | x in indeg && indeg[x] == 0)
    ensures Zeros(indeg, [], queue)
  {
    hide SortedElements;
    assert [] + queue == queue;
  }

  lemma NothingHeldBack(arcs: seq<Arc>, ids: set<string>, indeg: map<string, int>)
    requires arcs == [] && indeg.Keys == ids && Counted(arcs, ids, indeg)
    ensures (set x | x in indeg && indeg[x] == 0) == ids
  {
  }

  lemma QueueIsLive(ids: set<string>, live: set<string>, indeg: map<string, int>, order: seq<string>,
                    queue: seq<string>)
    requires indeg.Keys == ids && Remaining(ids, live, order) && Zeros(indeg, order, queue) && queue != []
    ensures queue[0] in live && queue[0] in indeg && indeg[queue[0]] == 0
  {
    MoveHead(indeg, order, queue);
    assert queue[0] in queue;
  }

  lemma Popped(ids: set<string>, live: set<string>, order: seq<string>, id: string)
    requires Remaining(ids, live, order) && id in live && id !in order && forall x :: x in live ==> x !in order
    ensures Remaining(ids, live - {id}, order + [id]) && forall x :: x in live - {id} ==> x !in order + [id]
  {
  }

  lemma NonNegative(arcs: seq<Arc>, live: set<string>, indeg: map<string, int>, next: seq<string>)
    requires forall x :: x in indeg ==> indeg[x] - multiset(next)[x] == InDegree(arcs, live, x)
    ensures forall x :: x in indeg ==> indeg[x] >= multiset(next)[x]
  {
    forall x | x in indeg
      ensures indeg[x] >= multiset(next)[x]
    {
      assert InDegree(arcs, live, x) >= 0;
    }
  }

  lemma Recounted(arcs: seq<Arc>, live: set<string>, before: map<string, int>, after: map<string, int>,
                  next: seq<string>)
    requires forall x :: x in before ==> before[x] - multiset(next)[x] == InDegree(arcs, live, x)
    requires after.Keys == before.Keys && forall x :: x in after ==> after[x] == before[x] - multiset(next)[x]
    ensures Counted(arcs, live, after)
  {
  }

  lemma Finished(arcs: seq<Arc>, ids: set<string>, live: set<string>, deps: map<string, seq<string>>,
                 indeg: map<string, int>,
                 order: seq<string>)
    requires Underway(arcs, ids, live, deps, indeg, order, [])
    ensures Distinct(order) && DependenciesFirst(arcs, order) && Remaining(ids, live, order)
    ensures forall x :: x in live ==> x !in order && x in ids && InDegree(arcs, live, x) > 0
  {
    hide DependenciesFirst, Remaining, FollowersKnown;
    assert order + [] == order;
  }

  /** One step of the main loop: the head of the queue is sorted and its followers are released. */
  method SortNext(ghost arcs: seq<Arc>, ghost ids: set<string>, ghost live: set<string>, deps: map<string, seq<string>>,
                  indeg0: map<string, int>, ghost order: seq<string>, queue0: seq<string>)
    returns (indeg: map<string, int>, queue: seq<string>)
    requires queue0 != [] && Underway(arcs, ids, live, deps, indeg0, order, queue0)
    ensures queue0[0] in live && queue0[0] in ids
    ensures Underway(arcs, ids, live - {queue0[0]}, deps, indeg, order + [queue0[0]], queue)
    ensures arcs == [] ==> queue == queue0[1..]
  {
    hide InDegree, Followers, DependenciesFirst, Zeros, Counted, FollowersKnown, Remaining;
    var id := queue0[0];
    QueueIsLive(ids, live, indeg0, order, queue0);
    MoveHead(indeg0, order, queue0);
    HeadIsFree(arcs, ids, live, indeg0, order, id);
    Popped(ids, live, order, id);
    var next := Sort(deps[id]);
    NextAreSteps(arcs, ids, deps, id, next);
    StepOut(arcs, live, id, deps, indeg0, next);
    NonNegative(arcs, live - {id}, indeg0, next);
    queue, indeg := Release(next, queue0[1..], indeg0, order + [id]);
    Recounted(arcs, live - {id}, indeg0, indeg, next);
  }

  /** What the main loop leaves: an order closed under dependencies, and nothing free outside it. */
  method KahnOrder(steps: seq<PlanStep>, byId: map<string, PlanStep>) returns (out: seq<PlanStep>,
                   ghost live: set<string>)
    requires byId.Keys == IdSet(steps) && forall x :: x in byId ==> byId[x].id == x
    ensures Distinct(Ids(out)) && DependenciesFirst(Arcs(IdSet(steps), steps), Ids(out))
    ensures forall i :: 0 <= i < |out| ==> out[i].id in byId && out[i] == byId[out[i].id]
    ensures Remaining(IdSet(steps), live, Ids(out)) && forall x :: x in live ==> x !in Ids(out)
    ensures forall x :: x in live ==> x in IdSet(steps) && InDegree(Arcs(IdSet(steps), steps), live, x) > 0
    ensures Arcs(IdSet(steps), steps) == [] ==> Ids(out) == SortedElements(IdSet(steps))
  {
    hide InDegree, Arcs, DependenciesFirst, Underway, Remaining, IdSet, Distinct, SortedElements;
    ghost var ids := IdSet(steps);
    ghost var arcs := Arcs(ids, steps);
    ArcEnds(steps);
    var deps, indeg := CountArcs(steps);
    var queue := Free(indeg);
    ghost var first := queue;
    ghost var order: seq<string> := [];
    out, live := [], ids;
    Begin(arcs, ids, deps, indeg, queue);
    while queue != []
      invariant Underway(arcs, ids, live, deps, indeg, order, queue)
      invariant order == Ids(out) && forall i :: 0 <= i < |out| ==> out[i].id in byId && out[i] == byId[out[i].id]
      invariant arcs == [] ==> order + queue == first
      decreases |live|
    {
      var id := queue[0];
      assert order + queue == (order + [id]) + queue[1..];
      indeg, queue := SortNext(arcs, ids, live, deps, indeg, order, queue);
      assert Ids(out + [byId[id]]) == Ids(out) + [id];
      out, order, live := out + [byId[id]], order + [id], live - {id};
    }
    Finished(arcs, ids, live, deps, indeg, order);
    assert order + [] == order;
  }

  // ---------------------------------------------------------------- acyclic or not

  /** Steps that hold each other back form a cycle. */
  lemma LeftoversAreACycle(steps: seq<PlanStep>, live: set<string>)
    requires live != {} && forall x :: x in live ==> InDegree(Arcs(IdSet(steps), steps), live, x) > 0
    ensures !Acyclic(DependsGraph(steps))
  {
    hide InDegree, Arcs, DependsGraph, Acyclic;
    var arcs := Arcs(IdSet(steps), steps);
    ArcsAreTheGraph(steps);
    forall y | y in live
      ensures HasPredecessor(DependsGraph(steps), live, y)
    {
      InDegreeZero(arcs, live, y);
      var a :| a in arcs && a.1 == y && a.0 in live;
      assert (a.0, y) in DependsGraph(steps);
    }
    NoSourceMeansCycle(DependsGraph(steps), live);
  }

  /** A complete order with dependencies first is a rank, so there is no cycle. */
  lemma OrderedMeansAcyclic(steps: seq<PlanStep>, order: seq<string>)
    requires Distinct(order) && DependenciesFirst(Arcs(IdSet(steps), steps), order)
    requires forall x :: x in IdSet(steps) ==> x in order
    ensures Acyclic(DependsGraph(steps))
  {
    hide Arcs;
    var arcs := Arcs(IdSet(steps), steps);
    var g := DependsGraph(steps);
    ArcsAreTheGraph(steps);
    var rank := map x | x in order :: Position(order, x);
    forall a, b | (a, b) in g
      ensures a in rank && b in rank && rank[a] < rank[b]
    {
      assert (a, b) in arcs;
      var i := Position(order, b);
      assert a in order[..i];
      var j :| 0 <= j < i && order[..i][j] == a;
      assert order[j] == a;
    }
    RankMeansAcyclic(g, rank);
  }

  ghost function Position(order: seq<string>, x: string): (i: nat)
    requires x in order
    ensures i < |order| && order[i] == x
  {
    var i :| 0 <= i < |order| && order[i] == x;
    i
  }

  /** The dependencies shown for a node: those of its last step in the input. */
  function LastDependsOn(steps: seq<PlanStep>, nodeId: string, dependsOn: seq<string>): seq<string> {
    if steps == [] then dependsOn
    else
      var n := |steps| - 1;
      if steps[n].nodeId == nodeId then steps[n].dependsOn else LastDependsOn(steps[..n], nodeId, dependsOn)
  }

  /** A step of the input, with the dependencies shown for its node. */
  ghost predicate FromInput(steps: seq<PlanStep>, out: PlanStep) {
    exists s :: s in steps && out == s.(dependsOn := LastDependsOn(steps, s.nodeId, s.dependsOn))
  }

  lemma Relabelled(steps: seq<PlanStep>, s: PlanStep, out: PlanStep)
    requires s in steps && out == s.(dependsOn := LastDependsOn(steps, s.nodeId, s.dependsOn))
    ensures FromInput(steps, out)
  {
  }

  lemma NoDependsOn(nodeId: string, dependsOn: seq<string>)
    ensures LastDependsOn([], nodeId, dependsOn) == dependsOn
  {
  }

  lemma NextDependsOn(steps: seq<PlanStep>, j: nat, nodeId: string, dependsOn: seq<string>)
    requires j < |steps|
    ensures LastDependsOn(steps[..j + 1], nodeId, dependsOn) ==
            if steps[j].nodeId == nodeId then steps[j].dependsOn else LastDependsOn(steps[..j], nodeId, dependsOn)
  {
    assert steps[..j + 1][..j] == steps[..j];
  }

  /** The step of each ID; the last one wins. */
  method ById(steps: seq<PlanStep>) returns (byId: map<string, PlanStep>)
    ensures byId.Keys == IdSet(steps)
    ensures forall x :: x in byId ==> byId[x].id == x && byId[x] in steps
  {
    byId := map[];
    for i := 0 to |steps|
      invariant byId.Keys == IdSet(steps[..i])
      invariant forall x :: x in byId ==> byId[x].id == x && byId[x] in steps
    {
      assert steps[..i + 1] == steps[..i] + [steps[i]];
      byId := byId[steps[i].id := steps[i]];
    }
    assert steps[..|steps|] == steps;
  }

  /** Whether the loop sorted as many steps as there are says exactly whether the plan can be sorted. */
  lemma SortVerdict(steps: seq<PlanStep>, order: seq<string>, live: set<string>)
    requires Distinct(order) && DependenciesFirst(Arcs(IdSet(steps), steps), order)
    requires Remaining(IdSet(steps), live, order) && forall x :: x in live ==> x !in order
    requires forall x :: x in live ==> x in IdSet(steps) && InDegree(Arcs(IdSet(steps), steps), live, x) > 0
    ensures |order| == |steps| <==> Distinct(Ids(steps)) && Acyclic(DependsGraph(steps))
    ensures |order| == |steps| ==>
              && multiset(order) == multiset(Ids(steps))
              && (forall i, d :: 0 <= i < |order| && (d, order[i]) in DependsGraph(steps) ==> d in order[..i])
  {
    hide InDegree, Arcs, Acyclic, Distinct, DependsGraph;
    var sorted := set x | x in order;
    var ids := IdSet(steps);
    ElementCount(order);
    ElementCount(Ids(steps));
    IdsAreIds(steps);
    assert sorted <= ids;
    SubsetSize(sorted, ids);
    if live == {} {
      assert sorted == ids;
      OrderedMeansAcyclic(steps, order);
    } else {
      LeftoversAreACycle(steps, live);
      var x :| x in live;
      SubsetSize(sorted + {x}, ids);
    }
    if |order| == |steps| {
      DistinctPermutation(order, Ids(steps));
      ArcsAreTheGraph(steps);
    }
  }

  lemma NoDependencies(steps: seq<PlanStep>)
    ensures DependsGraph(steps) == {} ==> Arcs(IdSet(steps), steps) == []
  {
    hide Arcs, DependsGraph;
    ArcsAreTheGraph(steps);
    if DependsGraph(steps) == {} {
      NoElements(Arcs(IdSet(steps), steps));
    }
  }

  lemma IdsAreIds(steps: seq<PlanStep>)
    ensures IdSet(steps) == set x | x in Ids(steps)
  {
    forall x
      ensures x in IdSet(steps) <==> x in Ids(steps)
    {
      if x in IdSet(steps) {
        var s :| s in steps && s.id == x;
        var i :| 0 <= i < |steps| && steps[i] == s;
        assert Ids(steps)[i] == x;
      }
    }
  }

  /**
   * Kahn's algorithm. It succeeds exactly when the step IDs are distinct and no step depends on itself, directly or
   * through others; every step then comes once, after all the steps of the plan it depends on.
   */
  method TopoSort(steps: seq<PlanStep>) returns (r: Outcome<seq<PlanStep>>)
    ensures r.Ok? <==> Distinct(Ids(steps)) && Acyclic(DependsGraph(steps))
    ensures r.Err? ==> r.code == InvalidSpec
    ensures r.Ok? ==>
              && multiset(Ids(r.value)) == multiset(Ids(steps))
              && (forall i :: 0 <= i < |r.value| ==> FromInput(steps, r.value[i]))
              && (forall i, d :: 0 <= i < |r.value| && (d, r.value[i].id) in DependsGraph(steps) ==> d in Ids(r.value)[..i])
    ensures r.Ok? && DependsGraph(steps) == {} ==> Ids(r.value) == SortedElements(IdSet(steps))
  {
    hide InDegree, Followers, Arcs, DependenciesFirst, Remaining, IdSet, Distinct, Acyclic, SortedElements,
      FromInput, LastDependsOn, DependsGraph;
    var byId := ById(steps);
    var out, live := KahnOrder(steps, byId);
    SortVerdict(steps, Ids(out), live);
    NoDependencies(steps);
    if |out| != |steps| {
      return Err(InvalidSpec);
    }
    ghost var order := Ids(out);
    for i := 0 to |out|
      invariant |out| == |steps| && Ids(out) == order
      invariant forall k :: 0 <= k < i ==> FromInput(steps, out[k])
      invariant forall k :: i <= k < |out| ==> out[k] in steps
    {
      var was := out[i];
      NoDependsOn(was.nodeId, was.dependsOn);
      for j := 0 to |steps|
        invariant |out| == |steps| && Ids(out) == order
        invariant out[i] == was.(dependsOn := LastDependsOn(steps[..j], was.nodeId, was.dependsOn))
        invariant forall k :: 0 <= k < i ==> FromInput(steps, out[k])
        invariant forall k :: i < k < |out| ==> out[k] in steps
      {
        NextDependsOn(steps, j, was.nodeId, was.dependsOn);
        if steps[j].nodeId == out[i].nodeId {
          out := out[i := out[i].(dependsOn := steps[j].dependsOn)];
        }
      }
      assert steps[..|steps|] == steps;
      Relabelled(steps, was, out[i]);
    }
    r := Ok(out);
  }
}
