/** Submitting runs: the idempotency index of the run store, and concurrent submissions with one key. */
module Submissions {
  import opened Outcomes

  datatype RunRecord = RunRecord(id: string, workspaceId: string, key: string, revision: nat)

  datatype RunState = RunState(runs: map<string, RunRecord>, byIdem: map<string, string>, order: seq<string>)

  /** The entry of a workspace and an idempotency key. */
  function Composed(workspaceId: string, key: string): string {
    workspaceId + "|" + key
  }

  function EntryOf(r: RunRecord): string {
    Composed(r.workspaceId, r.key)
  }

  function Saved(s: RunState, r: RunRecord): Outcome<RunState> {
    if r.key != "" && EntryOf(r) in s.byIdem && s.byIdem[EntryOf(r)] != r.id then Err(Conflict)
    else
      Ok(RunState(
           s.runs[r.id := r],
           if r.key != "" then s.byIdem[EntryOf(r) := r.id] else s.byIdem,
           if r.id in s.runs then s.order else s.order + [r.id]))
  }

  function Found(s: RunState, workspaceId: string, key: string): Option<RunRecord> {
    var k := Composed(workspaceId, key);
    if k in s.byIdem && s.byIdem[k] in s.runs then Some(s.runs[s.byIdem[k]]) else None
  }

  class RunStore {
    var runs: map<string, RunRecord>
    var byIdem: map<string, string>
    var order: seq<string>

    ghost function State(): RunState
      reads this
    {
      RunState(runs, byIdem, order)
    }

    constructor ()
      ensures State() == RunState(map[], map[], [])
    {
      runs, byIdem, order := map[], map[], [];
    }

    method SaveRun(run: RunRecord) returns (r: Check)
      modifies this
      ensures match Saved(old(State()), run)
              case Ok(s) => r == Pass && State() == s
              case Err(code) => r == Fail(code) && State() == old(State())
    {
      if run.key != "" {
        var k := run.workspaceId + "|" + run.key;
        if k in byIdem {
          if byIdem[k] != run.id {
            return Fail(Conflict);
          }
        }
        byIdem := byIdem[k := run.id];
      }
      if run.id !in runs {
        order := order + [run.id];
      }
      runs := runs[run.id := run];
      return Pass;
    }

    method FindByIdempotencyKey(workspaceId: string, key: string) returns (r: Option<RunRecord>)
      ensures r == Found(State(), workspaceId, key)
    {
      var k := workspaceId + "|" + key;
      if k !in byIdem {
        return None;
      }
      var id := byIdem[k];
      return if id in runs then Some(runs[id]) else None;
    }
  }

  datatype Request = Request(workspaceId: string, key: string)

  /** The index and the runs agree: each key leads to its one run. */
  ghost predicate Indexed(s: RunState) {
    && (forall id :: id in s.runs ==> s.runs[id].id == id)
    && (forall k :: k in s.byIdem ==> s.byIdem[k] in s.runs && s.runs[s.byIdem[k]].key != "" && EntryOf(s.runs[s.byIdem[k]]) == k)
    && (forall id :: id in s.runs && s.runs[id].key != "" ==> EntryOf(s.runs[id]) in s.byIdem && s.byIdem[EntryOf(s.runs[id])] == id)
  }

  /** Saving a new run, or an existing one under its own workspace and key, keeps the index in step. */
  lemma SavingKeepsIndex(s: RunState, r: RunRecord)
    requires Indexed(s)
    requires r.id in s.runs ==> s.runs[r.id].workspaceId == r.workspaceId && s.runs[r.id].key == r.key
    ensures Saved(s, r).Ok? ==> Indexed(Saved(s, r).value)
    ensures Saved(s, r).Err? <==> r.id !in s.runs && r.key != "" && Found(s, r.workspaceId, r.key).Some?
  {
    hide Composed;
  }

  /** Runs keep their workspace and key, and index entries never move. */
  ghost predicate Grows(a: RunState, b: RunState) {
    && (forall id :: id in a.runs ==> id in b.runs && b.runs[id].workspaceId == a.runs[id].workspaceId && b.runs[id].key == a.runs[id].key)
    && (forall k :: k in a.byIdem ==> k in b.byIdem && b.byIdem[k] == a.byIdem[k])
  }

  lemma SavingGrows(s: RunState, r: RunRecord)
    requires Indexed(s) && Saved(s, r).Ok?
    requires r.id in s.runs ==> s.runs[r.id].workspaceId == r.workspaceId && s.runs[r.id].key == r.key
    ensures Grows(s, Saved(s, r).value)
  {
    hide Composed;
  }

  /** New runs that others save. */
  ghost predicate AllNew(s: RunState, others: seq<RunRecord>, newId: string) {
    && (forall i :: 0 <= i < |others| ==> others[i].id !in s.runs && others[i].id != newId)
    && (forall i, j :: 0 <= i < j < |others| ==> others[i].id != others[j].id)
  }

  /** What other submissions save in the meantime; a clash is theirs to handle. */
  method Meanwhile(store: RunStore, others: seq<RunRecord>, ghost newId: string)
    requires Indexed(store.State()) && AllNew(store.State(), others, newId)
    modifies store
    ensures Indexed(store.State()) && Grows(old(store.State()), store.State())
    ensures newId !in old(store.runs) ==> newId !in store.runs
  {
    hide Saved, Found, Composed, Indexed;
    for i := 0 to |others|
      invariant Indexed(store.State()) && Grows(old(store.State()), store.State())
      invariant AllNew(store.State(), others[i..], newId)
      invariant newId !in old(store.runs) ==> newId !in store.runs
    {
      var r := others[i..][0];
      assert r == others[i];
      SavingKeepsIndex(store.State(), r);
      SavedAdds(store.State(), r);
      if Saved(store.State(), r).Ok? {
        SavingGrows(store.State(), r);
      }
      assert others[i..][1..] == others[i + 1..];
      var saved := store.SaveRun(r);
    }
  }

  lemma SavedAdds(s: RunState, r: RunRecord)
    ensures Saved(s, r).Ok? ==> Saved(s, r).value.runs == s.runs[r.id := r]
  {
  }

  /**
   * One submission, while others save new runs between its look-up and its own save. Whatever they save, it ends with
   * the run its key leads to; a run it finds at once is returned untouched.
   */
  method Create(store: RunStore, req: Request, newId: string, others: seq<RunRecord>) returns (r: Outcome<RunRecord>)
    requires Indexed(store.State()) && newId !in store.runs && AllNew(store.State(), others, newId)
    modifies store
    ensures Indexed(store.State()) && Grows(old(store.State()), store.State())
    ensures r.Ok? <==> req.workspaceId != ""
    ensures r.Ok? ==> r.value.id in store.runs && store.runs[r.value.id] == r.value
    ensures r.Ok? && req.key != "" ==> Found(store.State(), req.workspaceId, req.key) == Some(r.value)
    ensures r.Ok? && req.key != "" && Found(old(store.State()), req.workspaceId, req.key).Some? ==> store.State() == old(store.State())
    ensures r.Ok? && req.key == "" ==> r.value == RunRecord(newId, req.workspaceId, "", 0)
  {
    hide Saved, Found, Composed, Indexed, Grows;
    GrowsIsPreorder(store.State());
    if req.workspaceId == "" {
      return Err(InvalidRequest);
    }
    if req.key != "" {
      var existing := store.FindByIdempotencyKey(req.workspaceId, req.key);
      if existing.Some? {
        FoundIsStored(store.State(), req.workspaceId, req.key);
        return Ok(existing.value);
      }
    }
    Meanwhile(store, others, newId);
    var run := RunRecord(newId, req.workspaceId, req.key, 0);
    SavingKeepsIndex(store.State(), run);
    ghost var before := store.State();
    if Saved(before, run).Ok? {
      SavedIsFound(before, run);
      SavingGrows(before, run);
      GrowsTwice(old(store.State()), before, Saved(before, run).value);
    }
    var saved := store.SaveRun(run);
    if saved.Fail? {
      if req.key != "" {
        var existing := store.FindByIdempotencyKey(req.workspaceId, req.key);
        if existing.Some? {
          FoundIsStored(store.State(), req.workspaceId, req.key);
          return Ok(existing.value);
        }
      }
      return Err(Conflict);
    }
    return Ok(run);
  }

  lemma FoundIsStored(s: RunState, workspaceId: string, key: string)
    requires Indexed(s) && Found(s, workspaceId, key).Some?
    ensures var r := Found(s, workspaceId, key).value; r.id in s.runs && s.runs[r.id] == r
  {
  }

  lemma SavedIsFound(s: RunState, r: RunRecord)
    requires Saved(s, r).Ok?
    ensures var t := Saved(s, r).value;
            r.id in t.runs && t.runs[r.id] == r && (r.key != "" ==> Found(t, r.workspaceId, r.key) == Some(r))
  {
  }

  lemma GrowsIsPreorder(s: RunState)
    ensures Grows(s, s)
  {
  }

  lemma GrowsTwice(a: RunState, b: RunState, c: RunState)
    requires Grows(a, b) && Grows(b, c)
    ensures Grows(a, c)
  {
  }

  // ---------------------------------------------------------------- concurrent submissions

  /** How far a submission has come: it looks for a run, saves a new one, and looks again if that clashed. */
  datatype Call = Asked | Missed | Clashed | Answered(id: string) | Refused

  datatype Sys = Sys(store: RunState, calls: map<nat, Call>)

  /** The next atomic step of a submission; once answered, its run may be saved again as it progresses. */
  function Turn(req: Request, newId: string, call: Option<Call>, store: RunState): (RunState, Call) {
    match call
    case None => (store, Asked)
    case Some(Asked) =>
      if req.workspaceId == "" then (store, Refused)
      else if req.key != "" && Found(store, req.workspaceId, req.key).Some? then
        (store, Answered(Found(store, req.workspaceId, req.key).value.id))
      else (store, Missed)
    case Some(Missed) =>
      (match Saved(store, RunRecord(newId, req.workspaceId, req.key, 0))
       case Ok(s) => (s, Answered(newId))
       case Err(_) => (store, if req.key != "" then Clashed else Refused))
    case Some(Clashed) =>
      if Found(store, req.workspaceId, req.key).Some? then (store, Answered(Found(store, req.workspaceId, req.key).value.id))
      else (store, Refused)
    case Some(Answered(id)) =>
      if id in store.runs then
        var r := store.runs[id];
        var again := Saved(store, r.(revision := r.revision + 1));
        (if again.Ok? then again.value else store, Answered(id))
      else (store, Answered(id))
    case Some(Refused) => (store, Refused)
  }

  function CallOf(s: Sys, c: nat): Option<Call> {
    if c in s.calls then Some(s.calls[c]) else None
  }

  function Step(reqs: nat -> Request, ids: nat -> string, s: Sys, c: nat): Sys {
    var t := Turn(reqs(c), ids(c), CallOf(s, c), s.store);
    Sys(t.0, s.calls[c := t.1])
  }

  const Empty := Sys(RunState(map[], map[], []), map[])

  /** The state after the submissions have taken steps in some order, one number per step. */
  function Reach(reqs: nat -> Request, ids: nat -> string, schedule: seq<nat>): Sys {
    if schedule == [] then Empty
    else Step(reqs, ids, Reach(reqs, ids, schedule[..|schedule| - 1]), schedule[|schedule| - 1])
  }

  /** New IDs never repeat. */
  ghost predicate FreshIds(ids: nat -> string) {
    forall a, b :: a != b ==> ids(a) != ids(b)
  }

  ghost predicate Owned(reqs: nat -> Request, ids: nat -> string, s: Sys, id: string, c: nat) {
    c in s.calls && s.calls[c] == Answered(id) && ids(c) == id
    && id in s.store.runs && s.store.runs[id].workspaceId == reqs(c).workspaceId && s.store.runs[id].key == reqs(c).key
  }

  ghost predicate CallOk(reqs: nat -> Request, ids: nat -> string, s: Sys, c: nat)
    requires c in s.calls
  {
    var req := reqs(c);
    match s.calls[c]
    case Asked => true
    case Missed => req.workspaceId != ""
    case Clashed => req.workspaceId != "" && req.key != "" && Composed(req.workspaceId, req.key) in s.store.byIdem
    case Answered(id) =>
      req.workspaceId != "" && id in s.store.runs
      && (req.key != "" ==> Composed(req.workspaceId, req.key) in s.store.byIdem && s.store.byIdem[Composed(req.workspaceId, req.key)] == id)
      && (req.key == "" ==> id == ids(c))
    case Refused => req.workspaceId == ""
  }

  ghost predicate Inv(reqs: nat -> Request, ids: nat -> string, s: Sys) {
    && Indexed(s.store)
    && (forall c :: c in s.calls ==> CallOk(reqs, ids, s, c))
    && (forall id :: id in s.store.runs ==> exists c :: Owned(reqs, ids, s, id, c))
  }

  lemma TurnKeepsStore(reqs: nat -> Request, ids: nat -> string, s: Sys, c: nat)
    requires Inv(reqs, ids, s) && FreshIds(ids)
    ensures var t := Step(reqs, ids, s, c);
            && Indexed(t.store) && Grows(s.store, t.store) && CallOk(reqs, ids, t, c)
            && (forall id :: id in t.store.runs ==> id in s.store.runs || Owned(reqs, ids, t, id, c))
            && (forall id :: id in s.store.runs && Owned(reqs, ids, s, id, c) ==> Owned(reqs, ids, t, id, c))
  {
    hide Composed, Saved, Inv;
    InvFacts(reqs, ids, s, c);
    match CallOf(s, c)
    case Some(Missed) =>
      NewIdIsNew(reqs, ids, s, c);
      FirstSave(reqs, ids, s, c);
    case Some(Answered(_)) =>
      LaterSave(reqs, ids, s, c);
    case _ =>
      GrowsIsPreorder(s.store);
  }

  lemma InvFacts(reqs: nat -> Request, ids: nat -> string, s: Sys, c: nat)
    requires Inv(reqs, ids, s)
    ensures Indexed(s.store) && (c in s.calls ==> CallOk(reqs, ids, s, c))
  {
  }

  lemma FirstSave(reqs: nat -> Request, ids: nat -> string, s: Sys, c: nat)
    requires Indexed(s.store) && c in s.calls && CallOk(reqs, ids, s, c) && s.calls[c] == Missed && ids(c) !in s.store.runs
    ensures var t := Step(reqs, ids, s, c);
            && Indexed(t.store) && Grows(s.store, t.store) && CallOk(reqs, ids, t, c)
            && (forall id :: id in t.store.runs ==> id in s.store.runs || Owned(reqs, ids, t, id, c))
  {
    hide Composed, Indexed, Grows;
    var r := RunRecord(ids(c), reqs(c).workspaceId, reqs(c).key, 0);
    SavingKeepsIndex(s.store, r);
    GrowsIsPreorder(s.store);
    if Saved(s.store, r).Ok? {
      SavingGrows(s.store, r);
    }
  }

  lemma LaterSave(reqs: nat -> Request, ids: nat -> string, s: Sys, c: nat)
    requires Indexed(s.store) && c in s.calls && CallOk(reqs, ids, s, c) && s.calls[c].Answered?
    ensures var t := Step(reqs, ids, s, c);
            && Indexed(t.store) && Grows(s.store, t.store) && CallOk(reqs, ids, t, c)
            && (forall id :: id in t.store.runs ==> id in s.store.runs)
            && (forall id :: id in s.store.runs && Owned(reqs, ids, s, id, c) ==> Owned(reqs, ids, t, id, c))
  {
    hide Composed, Indexed, Found;
    var id := s.calls[c].id;
    StoredById(s.store, id);
    var r := s.store.runs[id].(revision := s.store.runs[id].revision + 1);
    SavingKeepsIndex(s.store, r);
    SavedAdds(s.store, r);
    GrowsIsPreorder(s.store);
    SavingGrows(s.store, r);
  }

  lemma StoredById(s: RunState, id: string)
    requires Indexed(s) && id in s.runs
    ensures s.runs[id].id == id
  {
  }

  lemma NewIdIsNew(reqs: nat -> Request, ids: nat -> string, s: Sys, c: nat)
    requires Inv(reqs, ids, s) && FreshIds(ids) && CallOf(s, c) == Some(Missed)
    ensures ids(c) !in s.store.runs
  {
    assert forall o :: !Owned(reqs, ids, s, ids(c), o);
  }

  lemma StepKeepsInv(reqs: nat -> Request, ids: nat -> string, s: Sys, c: nat)
    requires Inv(reqs, ids, s) && FreshIds(ids)
    ensures Inv(reqs, ids, Step(reqs, ids, s, c))
  {
    hide Composed, Turn, Indexed;
    var t := Step(reqs, ids, s, c);
    TurnKeepsStore(reqs, ids, s, c);
    forall b | b in t.calls
      ensures CallOk(reqs, ids, t, b)
    {
      if b != c {
        assert CallOk(reqs, ids, s, b);
      }
    }
    forall id | id in t.store.runs
      ensures exists o :: Owned(reqs, ids, t, id, o)
    {
      if !Owned(reqs, ids, t, id, c) {
        var o :| Owned(reqs, ids, s, id, o);
        assert Owned(reqs, ids, t, id, o);
      }
    }
  }

  lemma {:induction false} EveryScheduleKeepsInv(reqs: nat -> Request, ids: nat -> string, schedule: seq<nat>)
    requires FreshIds(ids)
    ensures Inv(reqs, ids, Reach(reqs, ids, schedule))
  {
    hide Inv, Step;
    if schedule == [] {
      EmptyIsOk(reqs, ids);
    } else {
      EveryScheduleKeepsInv(reqs, ids, schedule[..|schedule| - 1]);
      StepKeepsInv(reqs, ids, Reach(reqs, ids, schedule[..|schedule| - 1]), schedule[|schedule| - 1]);
    }
  }

  lemma EmptyIsOk(reqs: nat -> Request, ids: nat -> string)
    ensures Inv(reqs, ids, Empty)
  {
  }

  /**
   * In every interleaving, two answered submissions with keys get the same run exactly when their keys lead to the
   * same entry, and that run is the only one stored under the entry.
   */
  lemma OneRunPerKey(reqs: nat -> Request, ids: nat -> string, schedule: seq<nat>, a: nat, b: nat)
    requires FreshIds(ids)
    requires var s := Reach(reqs, ids, schedule);
             a in s.calls && s.calls[a].Answered? && b in s.calls && s.calls[b].Answered?
    requires reqs(a).key != "" && reqs(b).key != ""
    ensures var s := Reach(reqs, ids, schedule);
            && (s.calls[a].id == s.calls[b].id <==> Composed(reqs(a).workspaceId, reqs(a).key) == Composed(reqs(b).workspaceId, reqs(b).key))
            && s.calls[a].id in s.store.runs
            && (forall id :: id in s.store.runs && s.store.runs[id].key != "" && EntryOf(s.store.runs[id]) == Composed(reqs(a).workspaceId, reqs(a).key)
                  ==> id == s.calls[a].id)
  {
    hide Composed, Reach;
    var s := Reach(reqs, ids, schedule);
    EveryScheduleKeepsInv(reqs, ids, schedule);
    assert CallOk(reqs, ids, s, a) && CallOk(reqs, ids, s, b);
  }

  /** The list of runs names each stored run once. */
  ghost predicate Listed(s: RunState) {
    && (forall i, j :: 0 <= i < j < |s.order| ==> s.order[i] != s.order[j])
    && (forall id :: id in s.order <==> id in s.runs)
  }

  /** Saving a run puts a new one at the end of the list and leaves the place of the others. */
  lemma SavingKeepsList(s: RunState, r: RunRecord)
    requires Listed(s) && Saved(s, r).Ok?
    ensures var t := Saved(s, r).value;
      Listed(t) && s.order <= t.order && |t.order| == |s.order| + if r.id in s.runs then 0 else 1
  {
    hide Composed;
  }

  /** In every interleaving each run is listed once. */
  lemma {:induction false} EachRunIsListedOnce(reqs: nat -> Request, ids: nat -> string, schedule: seq<nat>)
    ensures Listed(Reach(reqs, ids, schedule).store)
  {
    hide Saved, Found, Listed;
    if schedule == [] {
      NothingIsListed();
    } else {
      var n := |schedule| - 1;
      EachRunIsListedOnce(reqs, ids, schedule[..n]);
      TurnKeepsList(reqs(schedule[n]), ids(schedule[n]), CallOf(Reach(reqs, ids, schedule[..n]), schedule[n]),
                    Reach(reqs, ids, schedule[..n]).store);
    }
  }

  lemma NothingIsListed()
    ensures Listed(Empty.store)
  {
  }

  lemma TurnKeepsList(req: Request, newId: string, call: Option<Call>, store: RunState)
    requires Listed(store)
    ensures Listed(Turn(req, newId, call, store).0)
  {
    hide Saved, Found, Listed;
    match call
    case Some(Missed) =>
      var r := RunRecord(newId, req.workspaceId, req.key, 0);
      if Saved(store, r).Ok? {
        SavingKeepsList(store, r);
      }
    case Some(Answered(id)) =>
      if id in store.runs {
        var r := store.runs[id].(revision := store.runs[id].revision + 1);
        if Saved(store, r).Ok? {
          SavingKeepsList(store, r);
        }
      }
    case _ =>
  }

  function Rank(call: Option<Call>): nat {
    match call
    case None => 0
    case Some(Asked) => 1
    case Some(Missed) => 2
    case Some(Clashed) => 3
    case Some(_) => 4
  }

  /** A submission needs at most four steps of its own, whatever the others do, and is refused only without a workspace. */
  lemma {:induction false} AnsweredInFourSteps(reqs: nat -> Request, ids: nat -> string, schedule: seq<nat>, c: nat)
    requires FreshIds(ids)
    ensures var call := CallOf(Reach(reqs, ids, schedule), c);
            && Rank(call) >= (if multiset(schedule)[c] < 4 then multiset(schedule)[c] else 4)
            && (call == Some(Refused) ==> reqs(c).workspaceId == "")
  {
    hide Saved, Found;
    if schedule != [] {
      var n := |schedule| - 1;
      AnsweredInFourSteps(reqs, ids, schedule[..n], c);
      assert schedule == schedule[..n] + [schedule[n]];
    }
    EveryScheduleKeepsInv(reqs, ids, schedule);
    var s := Reach(reqs, ids, schedule);
    assert c in s.calls ==> CallOk(reqs, ids, s, c);
  }

  // ---------------------------------------------------------------- composed keys

  /** What is left of a longer workspace ID after a shorter one and the separator. */
  function Beyond(short: string, long: string): string
    requires |short| < |long|
  {
    long[|short| + 1..]
  }

  /** Two keys of different workspaces meet when one ID continues the other past a bar, and the keys make up for it. */
  predicate Meet(short: string, k1: string, long: string, k2: string) {
    short + "|" <= long && k1 == Beyond(short, long) + "|" + k2
  }

  lemma LongerEntry(short: string, k1: string, long: string, k2: string)
    requires |short| < |long|
    ensures Composed(short, k1) == Composed(long, k2) <==> Meet(short, k1, long, k2)
  {
    var n := |short|;
    var a, b := Composed(short, k1), Composed(long, k2);
    assert a[..n] == short && a[n] == '|' && a[n + 1..] == k1;
    assert b[..n] == long[..n] && b[n] == long[n] && b[n + 1..] == Beyond(short, long) + "|" + k2;
    assert a == a[..n] + [a[n]] + a[n + 1..] && b == b[..n] + [b[n]] + b[n + 1..];
    assert short + "|" <= long <==> long[..n] == short && long[n] == '|';
  }

  /** Exactly when two submissions share an entry. */
  lemma SameEntryExactly(w1: string, k1: string, w2: string, k2: string)
    ensures Composed(w1, k1) == Composed(w2, k2)
       <==> (w1 == w2 && k1 == k2) || Meet(w1, k1, w2, k2) || Meet(w2, k2, w1, k1)
  {
    if |w1| < |w2| {
      LongerEntry(w1, k1, w2, k2);
    } else if |w2| < |w1| {
      LongerEntry(w2, k2, w1, k1);
    } else {
      var a, b := Composed(w1, k1), Composed(w2, k2);
      assert a[..|w1|] == w1 && a[|w1| + 1..] == k1 && b[..|w1|] == w2 && b[|w1| + 1..] == k2;
    }
  }

  /** Two workspaces share an entry, for some keys, exactly when one ID followed by a bar is the beginning of the other. */
  lemma WorkspacesShareExactly(w1: string, w2: string)
    requires w1 != w2
    ensures (exists k1, k2 :: k1 != "" && k2 != "" && Composed(w1, k1) == Composed(w2, k2))
       <==> w1 + "|" <= w2 || w2 + "|" <= w1
  {
    if k1, k2 :| k1 != "" && k2 != "" && Composed(w1, k1) == Composed(w2, k2) {
      SameEntryExactly(w1, k1, w2, k2);
    }
    if w1 + "|" <= w2 {
      SameEntryExactly(w1, Beyond(w1, w2) + "|" + "k", w2, "k");
    }
    if w2 + "|" <= w1 {
      SameEntryExactly(w1, "k", w2, Beyond(w2, w1) + "|" + "k");
    }
  }

  lemma BarInside(short: string, long: string)
    ensures short + "|" <= long ==> '|' in long
  {
    if short + "|" <= long {
      assert long[|short|] == (short + "|")[|short|];
    }
  }

  /** Workspaces without the separator never share an entry, whatever the keys. */
  lemma EntriesAreApart(w1: string, k1: string, w2: string, k2: string)
    requires '|' !in w1 && '|' !in w2
    ensures Composed(w1, k1) == Composed(w2, k2) <==> w1 == w2 && k1 == k2
  {
    SameEntryExactly(w1, k1, w2, k2);
    BarInside(w1, w2);
    BarInside(w2, w1);
  }
}
