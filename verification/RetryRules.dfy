/** When a step is tried again: by the class of the error, the attempts left, the pause and the cancellation. */
module RetryRules {
  import opened Outcomes
  import opened Metering
  import opened Execution

  /** Call number `j` of a step is followed by another one. */
  predicate TriedAgain(w: World, max: int, id: string, j: nat) {
    match w.reply(id, j)
    case Answer(_, _) => false
    case Refusal(f) =>
      f.cls in {Transient, RateLimited} && j < max && w.pause(j, f) > 0 && !w.canceledInPause(id, j)
  }

  /** How a step ends at its last call. */
  predicate EndsAs(w: World, max: int, id: string, j: nat, end: End) {
    match w.reply(id, j)
    case Answer(_, None) => end == Done
    case Answer(_, Some(f)) => end == Broken(f)
    case Refusal(f) =>
      if f.cls in {Transient, RateLimited} && j < max && w.pause(j, f) > 0 then end == Stopped else end == Broken(f)
  }

  /** What is recorded of a call: nothing if its answer could not be stored. */
  function Noted(w: World, id: string, j: nat): seq<Attempt> {
    match w.reply(id, j)
    case Answer(_, Some(_)) => []
    case Answer(u, None) => [Attempt(j, Succeeded, None, ApplyCost(w.pricing(id), u))]
    case Refusal(f) => [Attempt(j, Failed, Some(f), NoUsage)]
  }

  lemma OneTry(w: World, max: int, id: string, k: nat)
    ensures TriedAgain(w, max, id, k) ==> k < max
    ensures var t := Tries(w, max, id, k);
      if TriedAgain(w, max, id, k) then
        t.attempts == Noted(w, id, k) + Tries(w, max, id, k + 1).attempts && t.end == Tries(w, max, id, k + 1).end
      else t.attempts == Noted(w, id, k) && EndsAs(w, max, id, k, t.end)
  {
  }

  /**
   * A step is called again exactly after a transient or rate-limited refusal with attempts left, a pause to wait and no
   * cancellation; the first call of any other kind is the last, and decides how the step ends.
   */
  lemma {:induction false} TriedExactly(w: World, max: int, id: string, k: nat) returns (last: nat)
    ensures k <= last && !TriedAgain(w, max, id, last) && EndsAs(w, max, id, last, Tries(w, max, id, k).end)
    ensures forall j :: k <= j < last ==> TriedAgain(w, max, id, j)
    ensures |Tries(w, max, id, k).attempts| == last - k + |Noted(w, id, last)|
    ensures forall j :: k <= j <= last && Noted(w, id, j) != [] ==> Noted(w, id, j) == [Tries(w, max, id, k).attempts[j - k]]
    decreases if k < max then max - k else 0
  {
    hide Tries, EndsAs;
    OneTry(w, max, id, k);
    if TriedAgain(w, max, id, k) {
      last := TriedExactly(w, max, id, k + 1);
      var t, rest := Tries(w, max, id, k), Tries(w, max, id, k + 1);
      forall j | k <= j <= last && Noted(w, id, j) != []
        ensures Noted(w, id, j) == [t.attempts[j - k]]
      {
        if j > k {
          assert t.attempts[j - k] == rest.attempts[j - k - 1];
        }
      }
    } else {
      last := k;
    }
  }

  /** By class: an attempt that is not the last failed in passing, and one that failed in passing is the last only for want of attempts, pause or leave. */
  lemma RetriedByClass(w: World, max: int, id: string, i: nat)
    requires i < |Tries(w, max, id, 1).attempts|
    ensures var t := Tries(w, max, id, 1); var a := t.attempts[i];
      && a.index == i + 1
      && (i < |t.attempts| - 1 ==> a.error.Some? && a.error.value.cls in {Transient, RateLimited})
      && (i == |t.attempts| - 1 && a.error.Some? && a.error.value.cls in {Transient, RateLimited} ==>
            || i + 1 >= max || w.pause(i + 1, a.error.value) == 0 || w.canceledInPause(id, i + 1)
            || (w.reply(id, i + 2).Answer? && w.reply(id, i + 2).storing.Some?))
  {
    hide Tries;
    var last := TriedExactly(w, max, id, 1);
    if i + 1 < last {
      assert TriedAgain(w, max, id, i + 1);
    }
    assert i + 1 <= last && Noted(w, id, i + 1) != [];
  }

  /** Every step is told to start first; without a channel, and then without inputs, it makes no call. */
  lemma NoCallsWithout(w: World, max: int, id: string)
    ensures var p := Play(w, max, id);
      if !w.resolves(id) then p == Played([], [Started(id)], Broken(Fault(Permanent, "invalid_request")))
      else if w.inputs(id).Some? then p == Played([], [Started(id)], Broken(w.inputs(id).value))
      else
        var t := Tries(w, max, id, 1);
        p == Played(t.attempts, [Started(id)] + t.events, t.end)
  {
    hide Tries;
    PlayIsTries(w, max, id);
  }

  // ---------------------------------------------------------------- events and errors

  function Times(e: Event, n: nat): seq<Event> {
    if n == 0 then [] else [e] + Times(e, n - 1)
  }

  /** A call that another one could follow: refused in passing, with attempts left and a pause to wait. */
  predicate Noticed(w: World, max: int, id: string, j: nat) {
    match w.reply(id, j)
    case Answer(_, _) => false
    case Refusal(f) => f.cls in {Transient, RateLimited} && j < max && w.pause(j, f) > 0
  }

  lemma OneTryEvents(w: World, max: int, id: string, k: nat)
    ensures var t := Tries(w, max, id, k);
      if TriedAgain(w, max, id, k) then t.events == [Retried(id)] + Tries(w, max, id, k + 1).events
      else t.events == if t.end.Stopped? then [Retried(id)] else if t.end.Done? then [StepDone(id)] else []
    ensures TriedAgain(w, max, id, k) <==> Noticed(w, max, id, k) && !w.canceledInPause(id, k)
    ensures !TriedAgain(w, max, id, k) ==> (Tries(w, max, id, k).end.Stopped? <==> Noticed(w, max, id, k))
  {
  }

  /** A notice of another call follows each call that is tried again, and the last one if the run was canceled in its pause; success is told once, at the end. */
  lemma {:induction false} RetriesAreTold(w: World, max: int, id: string, k: nat) returns (notices: nat)
    ensures var t := Tries(w, max, id, k); t.events == Times(Retried(id), notices) + if t.end.Done? then [StepDone(id)] else []
    ensures forall j :: k <= j < k + notices ==> Noticed(w, max, id, j)
    ensures if Tries(w, max, id, k).end.Stopped? then notices > 0 && w.canceledInPause(id, k + notices - 1)
            else !Noticed(w, max, id, k + notices)
    decreases if k < max then max - k else 0
  {
    hide Tries, TriedAgain, Noticed;
    OneTry(w, max, id, k);
    OneTryEvents(w, max, id, k);
    if TriedAgain(w, max, id, k) {
      var more := RetriesAreTold(w, max, id, k + 1);
      notices := more + 1;
    } else {
      notices := if Tries(w, max, id, k).end.Stopped? then 1 else 0;
      assert Times(Retried(id), 0) == [];
    }
  }

  /** A step that fails shows why, and its events end with the failure; one that is left out has no events. */
  lemma FailuresAreTold(w: World, max: int, steps: seq<Step>, i: nat)
    requires i < |steps|
    ensures var s, ev, p := Visit(w, max, steps, i), VisitEvents(w, max, steps, i), Play(w, max, steps[i].id);
      if !DepsSatisfied(steps, steps[i].dependsOn) then s == steps[i].(status := Skipped) && ev == []
      else
        && s.attempts == p.attempts
        && (p.end.Done? ==> s.status == Succeeded && s.error == steps[i].error && ev == p.events)
        && (p.end.Broken? ==> s.status == Failed && s.error == Some(p.end.fault) && ev == p.events + [StepFailed(steps[i].id)])
        && (p.end.Stopped? ==> s.status == Canceled && ev == p.events)
  {
    hide Play, DepsSatisfied;
  }

  /** The error shown for a run is that of the first failed step that has one. */
  lemma {:induction false} FirstErrorIsShown(steps: seq<Step>, f: Fault)
    ensures FirstFault(steps) == Some(f)
       <==> exists i :: && 0 <= i < |steps| && steps[i].status == Failed && steps[i].error == Some(f)
                        && forall j :: 0 <= j < i && steps[j].status == Failed ==> steps[j].error == None
  {
    if steps != [] && !(steps[0].status == Failed && steps[0].error.Some?) {
      FirstErrorIsShown(steps[1..], f);
      if FirstFault(steps[1..]) == Some(f) {
        var i :| && 0 <= i < |steps[1..]| && steps[1..][i].status == Failed && steps[1..][i].error == Some(f)
                 && forall j :: 0 <= j < i && steps[1..][j].status == Failed ==> steps[1..][j].error == None;
        assert steps[i + 1] == steps[1..][i];
        assert forall j :: 0 < j < i + 1 ==> steps[j] == steps[1..][j - 1];
      }
      if i :| && 0 <= i < |steps| && steps[i].status == Failed && steps[i].error == Some(f)
              && forall j :: 0 <= j < i && steps[j].status == Failed ==> steps[j].error == None {
        assert steps[1..][i - 1] == steps[i];
        assert forall j :: 0 <= j < i - 1 ==> steps[1..][j] == steps[j + 1];
      }
    }
  }
}
