/** The in-memory canvas store: compare-and-set on the version, the operation log and the version index. */
module Store {
  import opened Outcomes
  import opened Documents
  import opened Operations

  datatype Stored = Stored(projectId: string, doc: Doc, version: int, updatedAt: int)

  datatype Record = Record(seqNo: int, canvasId: string, actor: string, op: Op, version: int, at: int)

  /** The last sequence number a version covers. */
  datatype VersionEntry = VersionEntry(version: int, seqNo: int)

  /** Everything the store keeps about one canvas. */
  datatype CanvasState = CanvasState(stored: Option<Stored>, log: seq<Record>, lastSeq: int, index: seq<VersionEntry>)

  const NewCanvas := CanvasState(None, [], 0, [])

  function Created(c: CanvasState, s: Stored): CanvasState {
    c.(stored := Some(s), log := [])
  }

  /** The records of a batch, numbered after `last`. */
  function Numbered(last: int, canvasId: string, actor: string, ops: seq<Op>, version: int, at: int): seq<Record> {
    seq(|ops|, i requires 0 <= i < |ops| => Record(last + 1 + i, canvasId, actor, ops[i], version, at))
  }

  /** The canvas after an accepted compare-and-set. */
  function Appended(c: CanvasState, canvasId: string, doc: Doc, ops: seq<Op>, actor: string, now: int): CanvasState
    requires c.stored.Some?
  {
    var version := c.stored.value.version + 1;
    var last := c.lastSeq + |ops|;
    CanvasState(Some(c.stored.value.(doc := doc, version := version, updatedAt := now)),
                c.log + Numbered(c.lastSeq, canvasId, actor, ops, version, now),
                last,
                c.index + [VersionEntry(version, last)])
  }

  function LimitOf(limit: int): nat {
    if limit <= 0 then 200 else limit
  }

  /** The first `limit` records that satisfy a test, in log order. */
  function FirstMatching(log: seq<Record>, test: Record -> bool, limit: nat): seq<Record> {
    if log == [] then []
    else
      var front := FirstMatching(log[..|log| - 1], test, limit);
      if |front| < limit && test(log[|log| - 1]) then front + [log[|log| - 1]] else front
  }

  function LaterSeq(since: int): Record -> bool {
    (r: Record) => r.seqNo > since
  }

  function LaterVersion(since: int): Record -> bool {
    (r: Record) => r.version > since
  }

  function AfterSeq(log: seq<Record>, since: int, limit: int): seq<Record> {
    FirstMatching(log, LaterSeq(since), LimitOf(limit))
  }

  /** What the version lookup is meant to return: the whole log filtered by version. */
  function AfterVersion(log: seq<Record>, since: int, limit: int): seq<Record> {
    FirstMatching(log, LaterVersion(since), LimitOf(limit))
  }

  /** The sequence number the index gives for a version: that of the last entry before a greater version. */
  function SeqOfVersion(index: seq<VersionEntry>, since: int): int {
    SeqOfVersionFrom(index, since, 0)
  }

  function SeqOfVersionFrom(index: seq<VersionEntry>, since: int, found: int): int {
    if index == [] || index[0].version > since then found
    else SeqOfVersionFrom(index[1..], since, index[0].seqNo)
  }

  class MemoryStore {
    var docs: map<string, Stored>
    var ops: map<string, seq<Record>>
    var lastSeq: map<string, int>
    var index: map<string, seq<VersionEntry>>

    ghost function Canvas(id: string): CanvasState
      reads this
    {
      CanvasState(if id in docs then Some(docs[id]) else None, if id in ops then ops[id] else [],
                  if id in lastSeq then lastSeq[id] else 0, if id in index then index[id] else [])
    }

    constructor ()
      ensures forall id :: Canvas(id) == NewCanvas
    {
      docs, ops, lastSeq, index := map[], map[], map[], map[];
    }

    method GetDocument(id: string) returns (r: Outcome<Stored>)
      ensures r == if Canvas(id).stored.Some? then Ok(Canvas(id).stored.value) else Err(NotFound)
    {
      if id !in docs {
        return Err(NotFound);
      }
      return Ok(docs[id]);
    }

    method CreateDocument(id: string, s: Stored) returns (r: Check)
      modifies this
      ensures r == if old(Canvas(id)).stored.Some? then Fail(Conflict) else Pass
      ensures r.Pass? ==> Canvas(id) == CanvasState(Some(s), [], old(Canvas(id)).lastSeq, old(Canvas(id)).index)
      ensures r.Fail? ==> Canvas(id) == old(Canvas(id))
      ensures forall other :: other != id ==> Canvas(other) == old(Canvas(other))
    {
      if id in docs {
        return Fail(Conflict);
      }
      docs := docs[id := s];
      ops := ops[id := []];
      return Pass;
    }

    method DeleteDocument(id: string) returns (r: Check)
      modifies this
      ensures r == if old(Canvas(id)).stored.None? then Fail(NotFound) else Pass
      ensures Canvas(id) == if r.Pass? then old(Canvas(id)).(stored := None, log := []) else old(Canvas(id))
      ensures forall other :: other != id ==> Canvas(other) == old(Canvas(other))
    {
      if id !in docs {
        return Fail(NotFound);
      }
      docs := docs - {id};
      ops := ops - {id};
      return Pass;
    }

    /** Replaces the document and appends the records, if the stored version is still `base`. */
    method AppendOps(id: string, base: int, doc: Doc, batch: seq<Op>, actor: string, now: int)
      returns (r: Outcome<int>, records: seq<Record>)
      modifies this
      ensures old(Canvas(id)).stored.None? ==> r == Err(NotFound)
      ensures old(Canvas(id)).stored.Some? && old(Canvas(id)).stored.value.version != base ==> r == Err(Conflict)
      ensures old(Canvas(id)).stored.Some? && old(Canvas(id)).stored.value.version == base ==>
        r == Ok(base + 1) && Canvas(id) == Appended(old(Canvas(id)), id, doc, batch, actor, now)
        && Canvas(id).log == old(Canvas(id)).log + records
      ensures r.Err? ==> Canvas(id) == old(Canvas(id))
      ensures forall other :: other != id ==> Canvas(other) == old(Canvas(other))
    {
      records := [];
      if id !in docs {
        r := Err(NotFound);
        return;
      }
      var cur := docs[id];
      if cur.version != base {
        r := Err(Conflict);
        return;
      }
      var next := cur.(doc := doc, version := cur.version + 1, updatedAt := now);
      var start := if id in lastSeq then lastSeq[id] else 0;
      var seqNo := start;
      var i := 0;
      while i < |batch|
        invariant 0 <= i <= |batch| && seqNo == start + i
        invariant records == Numbered(start, id, actor, batch[..i], next.version, now)
      {
        seqNo := seqNo + 1;
        records := records + [Record(seqNo, id, actor, batch[i], next.version, now)];
        i := i + 1;
      }
      assert batch[..i] == batch;
      lastSeq := lastSeq[id := seqNo];
      docs := docs[id := next];
      index := index[id := (if id in index then index[id] else []) + [VersionEntry(next.version, seqNo)]];
      ops := ops[id := (if id in ops then ops[id] else []) + records];
      r := Ok(next.version);
    }

    method ListOps(id: string, since: int, limit: int) returns (out: seq<Record>)
      ensures out == AfterSeq(Canvas(id).log, since, limit)
    {
      var bound := LimitOf(limit);
      var log := if id in ops then ops[id] else [];
      ghost var test := LaterSeq(since);
      out := [];
      var i := 0;
      while i < |log|
        invariant 0 <= i <= |log|
        invariant out == FirstMatching(log[..i], test, bound) && |out| < bound
      {
        assert log[..i + 1][..i] == log[..i];
        if log[i].seqNo > since {
          out := out + [log[i]];
          if |out| >= bound {
            FullIsFinal(log, test, bound, i + 1);
            return;
          }
        }
        i := i + 1;
      }
      assert log[..i] == log;
    }

    method ListOpsSinceVersion(id: string, since: int, limit: int) returns (out: seq<Record>)
      ensures out == AfterSeq(Canvas(id).log, SeqOfVersion(Canvas(id).index, since), LimitOf(limit))
    {
      var bound := LimitOf(limit);
      var entries := if id in index then index[id] else [];
      var seqNo := 0;
      var i := 0;
      while i < |entries|
        invariant 0 <= i <= |entries|
        invariant SeqOfVersion(entries, since) == SeqOfVersionFrom(entries[i..], since, seqNo)
      {
        if entries[i].version <= since {
          seqNo := entries[i].seqNo;
        } else {
          break;
        }
        i := i + 1;
      }
      out := ListOps(id, seqNo, bound);
    }
  }

  /** Once the limit is reached the rest of the log adds nothing. */
  lemma {:induction false} FullIsFinal(log: seq<Record>, test: Record -> bool, limit: nat, n: nat)
    requires n <= |log| && |FirstMatching(log[..n], test, limit)| >= limit
    ensures FirstMatching(log, test, limit) == FirstMatching(log[..n], test, limit)
    decreases |log|
  {
    if n == |log| {
      assert log[..n] == log;
    } else {
      assert log[..|log| - 1][..n] == log[..n];
      FullIsFinal(log[..|log| - 1], test, limit, n);
    }
  }

  // ---------------------------------------------------------------- the log of a canvas that was never deleted

  /**
   * Sequence numbers count 1, 2, 3, ... without a gap, versions 1, 2, 3, ... one per batch, and the
   * index separates the records of each version from the later ones.
   */
  ghost predicate LogOk(c: CanvasState) {
    && c.stored.Some? && c.stored.value.version == |c.index|
    && c.lastSeq == |c.log|
    && (forall i :: 0 <= i < |c.log| ==> c.log[i].seqNo == i + 1 && 1 <= c.log[i].version <= |c.index|)
    && (forall j :: 0 <= j < |c.index| ==> c.index[j].version == j + 1 && 0 <= c.index[j].seqNo <= |c.log|)
    && (forall i, j :: 0 <= i < |c.log| && 0 <= j < |c.index| ==> (c.log[i].version <= j + 1 <==> i < c.index[j].seqNo))
    && (|c.index| > 0 ==> c.index[|c.index| - 1].seqNo == |c.log|)
  }

  lemma CreatedLogOk(s: Stored)
    requires s.version == 0
    ensures LogOk(Created(NewCanvas, s))
  {
  }

  lemma AppendedLogOk(c: CanvasState, canvasId: string, doc: Doc, ops: seq<Op>, actor: string, now: int)
    requires LogOk(c)
    ensures LogOk(Appended(c, canvasId, doc, ops, actor, now))
    ensures Appended(c, canvasId, doc, ops, actor, now).stored.value.version == c.stored.value.version + 1
  {
    hide Numbered;
    var d := Appended(c, canvasId, doc, ops, actor, now);
    NumberedRecords(c.lastSeq, canvasId, actor, ops, |d.index|, now);
    forall i | 0 <= i < |d.log|
      ensures d.log[i].seqNo == i + 1 && d.log[i].version == if i < |c.log| then c.log[i].version else |d.index|
    {
      if i < |c.log| {
        assert d.log[i] == c.log[i];
      } else {
        assert d.log[i] == Numbered(c.lastSeq, canvasId, actor, ops, |d.index|, now)[i - |c.log|];
      }
    }
    forall j | 0 <= j < |d.index|
      ensures d.index[j] == if j < |c.index| then c.index[j] else VersionEntry(|d.index|, |d.log|)
    {
    }
  }

  lemma NumberedRecords(last: int, canvasId: string, actor: string, ops: seq<Op>, version: int, now: int)
    ensures var rs := Numbered(last, canvasId, actor, ops, version, now);
            |rs| == |ops| && forall i :: 0 <= i < |ops| ==> rs[i].seqNo == last + i + 1 && rs[i].version == version
  {
  }

  lemma {:induction false} SameTestsSameRecords(log: seq<Record>, a: Record -> bool, b: Record -> bool, limit: nat)
    requires forall i :: 0 <= i < |log| ==> a(log[i]) == b(log[i])
    ensures FirstMatching(log, a, limit) == FirstMatching(log, b, limit)
    decreases |log|
  {
    if log != [] {
      SameTestsSameRecords(log[..|log| - 1], a, b, limit);
    }
  }

  /** The scan of the index ends at the first entry of a greater version. */
  lemma {:induction false} ScanStops(index: seq<VersionEntry>, since: int, k: nat, found: int)
    requires k <= |index| && (forall j :: 0 <= j < k ==> index[j].version <= since)
    requires k < |index| ==> index[k].version > since
    ensures SeqOfVersionFrom(index, since, found) == if k == 0 then found else index[k - 1].seqNo
    decreases k
  {
    if k > 0 {
      ScanStops(index[1..], since, k - 1, index[0].seqNo);
    }
  }

  /**
   * On a canvas that was never deleted, looking a version up through the index returns the same
   * records, in the same order and under the same limit, as filtering the whole log by version.
   */
  lemma IndexLookupIsVersionFilter(c: CanvasState, since: int, limit: int)
    requires LogOk(c)
    ensures AfterSeq(c.log, SeqOfVersion(c.index, since), LimitOf(limit)) == AfterVersion(c.log, since, limit)
  {
    var s := SeqOfVersion(c.index, since);
    ScanStops(c.index, since, if since <= 0 then 0 else if since < |c.index| then since else |c.index|, 0);
    var bySeq := LaterSeq(s);
    var byVersion := LaterVersion(since);
    forall i | 0 <= i < |c.log|
      ensures bySeq(c.log[i]) == byVersion(c.log[i])
    {
      if 0 < since && |c.index| > 0 {
        var j := (if since < |c.index| then since else |c.index|) - 1;
        assert c.log[i].version <= j + 1 <==> i < c.index[j].seqNo;
      }
    }
    SameTestsSameRecords(c.log, bySeq, byVersion, LimitOf(limit));
  }

  // ---------------------------------------------------------------- what a commit records

  /** Record by record, a commit notes the operation, who made it, the version it made and when, and counts on from the last one. */
  lemma CommitRecords(c: CanvasState, canvasId: string, doc: Doc, ops: seq<Op>, actor: string, now: int, i: nat)
    requires c.stored.Some? && i < |ops|
    ensures var d := Appended(c, canvasId, doc, ops, actor, now);
      && |d.log| == |c.log| + |ops| && c.log <= d.log
      && d.log[|c.log| + i] == Record(c.lastSeq + i + 1, canvasId, actor, ops[i], c.stored.value.version + 1, now)
      && d.lastSeq == c.lastSeq + |ops|
      && d.stored == Some(Stored(c.stored.value.projectId, doc, c.stored.value.version + 1, now))
  {
  }

  /** A limit that is not positive stands for two hundred; at most that many records are listed, and all that match if they are fewer. */
  lemma LimitMeans(log: seq<Record>, since: int, limit: int)
    ensures var most := if limit > 0 then limit else 200;
      && |AfterSeq(log, since, limit)| <= most
      && (forall i :: 0 <= i < |AfterSeq(log, since, limit)| ==> AfterSeq(log, since, limit)[i].seqNo > since)
      && (|AfterSeq(log, since, limit)| < most ==> forall i :: 0 <= i < |log| && log[i].seqNo > since ==> log[i] in AfterSeq(log, since, limit))
  {
    MatchesPass(log, LaterSeq(since), LimitOf(limit));
    MatchesAreListed(log, LaterSeq(since), LimitOf(limit));
  }

  lemma {:induction false} MatchesAreListed(log: seq<Record>, test: Record -> bool, limit: nat)
    ensures |FirstMatching(log, test, limit)| <= limit
    ensures |FirstMatching(log, test, limit)| < limit ==> forall i :: 0 <= i < |log| && test(log[i]) ==> log[i] in FirstMatching(log, test, limit)
    decreases |log|
  {
    if log != [] {
      MatchesAreListed(log[..|log| - 1], test, limit);
    }
  }

  // ---------------------------------------------------------------- a canvas that was deleted and created again

  /**
   * The canvas after a deletion at version `m`, when `last` records had been numbered, and a second creation: the index
   * still starts with the `m` old entries, while versions start again and sequence numbers go on.
   */
  ghost predicate Recreated(c: CanvasState, m: nat, last: nat) {
    && m <= |c.index| && c.stored.Some? && c.stored.value.version == |c.index| - m
    && c.lastSeq == last + |c.log|
    && (forall j :: 0 <= j < m ==> c.index[j].version == j + 1 && 0 <= c.index[j].seqNo <= last)
    && (forall i :: 0 <= i < |c.log| ==> c.log[i].seqNo == last + i + 1 && 1 <= c.log[i].version <= |c.index| - m)
    && (forall j :: m <= j < |c.index| ==> c.index[j].version == j - m + 1 && last < c.index[j].seqNo <= last + |c.log|)
    && (forall i, j :: 0 <= i < |c.log| && m <= j < |c.index| ==> (c.log[i].version <= j - m + 1 <==> last + i < c.index[j].seqNo))
  }

  function CreatedAgain(c: CanvasState, s: Stored): CanvasState {
    Created(c.(stored := None, log := []), s)
  }

  lemma CreatedAgainIsRecreated(c: CanvasState, s: Stored)
    requires LogOk(c) && s.version == 0
    ensures Recreated(CreatedAgain(c, s), |c.index|, |c.log|)
  {
  }

  lemma AppendedRecreated(c: CanvasState, m: nat, last: nat, canvasId: string, doc: Doc, ops: seq<Op>, actor: string, now: int)
    requires Recreated(c, m, last) && ops != []
    ensures Recreated(Appended(c, canvasId, doc, ops, actor, now), m, last)
  {
    hide Numbered;
    var d := Appended(c, canvasId, doc, ops, actor, now);
    var version := |c.index| - m + 1;
    NumberedRecords(c.lastSeq, canvasId, actor, ops, version, now);
    forall i | 0 <= i < |d.log|
      ensures d.log[i].seqNo == last + i + 1 && d.log[i].version == if i < |c.log| then c.log[i].version else version
    {
      if i < |c.log| {
        assert d.log[i] == c.log[i];
      } else {
        assert d.log[i] == Numbered(c.lastSeq, canvasId, actor, ops, version, now)[i - |c.log|];
      }
    }
    forall j | 0 <= j < |d.index|
      ensures d.index[j] == if j < |c.index| then c.index[j] else VersionEntry(version, last + |d.log|)
    {
    }
  }

  /** How far the scan of a recreated canvas gets. */
  function ScanEnd(m: nat, n: nat, since: int): nat {
    if since <= 0 then 0 else if since < m then since else m + (if since < n then since else n)
  }

  lemma RecreatedLookup(c: CanvasState, m: nat, last: nat, since: int)
    requires Recreated(c, m, last)
    ensures var k := ScanEnd(m, |c.index| - m, since);
            k <= |c.index| && SeqOfVersion(c.index, since) == if k == 0 then 0 else c.index[k - 1].seqNo
  {
    ScanStops(c.index, since, ScanEnd(m, |c.index| - m, since), 0);
  }

  lemma {:induction false} FirstIsKept(log: seq<Record>, test: Record -> bool, limit: nat)
    requires log != [] && limit > 0
    ensures (FirstMatching(log, test, limit) != [] && FirstMatching(log, test, limit)[0] == log[0]) || !test(log[0])
    decreases |log|
  {
    if |log| > 1 {
      FirstIsKept(log[..|log| - 1], test, limit);
    }
  }

  lemma {:induction false} MatchesPass(log: seq<Record>, test: Record -> bool, limit: nat)
    ensures forall i :: 0 <= i < |FirstMatching(log, test, limit)| ==> test(FirstMatching(log, test, limit)[i])
    decreases |log|
  {
    if log != [] {
      MatchesPass(log[..|log| - 1], test, limit);
    }
  }

  /**
   * Deletion leaves the old index behind. On a canvas deleted at version `m` and created again, a lookup through the
   * index still equals the version filter exactly when nothing was written since, or the version asked for is not one of
   * the first `m - 1`.
   */
  lemma LookupAfterRecreationExactly(c: CanvasState, m: nat, last: nat, since: int, limit: int)
    requires Recreated(c, m, last)
    ensures AfterSeq(c.log, SeqOfVersion(c.index, since), LimitOf(limit)) == AfterVersion(c.log, since, limit)
       <==> |c.index| == m || since <= 0 || since >= m
  {
    hide FirstMatching;
    var s := SeqOfVersion(c.index, since);
    RecreatedLookup(c, m, last, since);
    var bySeq, byVersion := LaterSeq(s), LaterVersion(since);
    if |c.index| == m || since <= 0 || since >= m {
      forall i | 0 <= i < |c.log|
        ensures bySeq(c.log[i]) == byVersion(c.log[i])
      {
        if since > 0 && |c.index| > m {
          var j := ScanEnd(m, |c.index| - m, since) - 1;
          assert c.log[i].version <= j - m + 1 <==> last + i < c.index[j].seqNo;
        }
      }
      SameTestsSameRecords(c.log, bySeq, byVersion, LimitOf(limit));
    } else {
      assert last < c.index[m].seqNo <= last + |c.log|;
      assert c.log[0].version <= 1;
      FirstIsKept(c.log, bySeq, LimitOf(limit));
      MatchesPass(c.log, byVersion, LimitOf(limit));
    }
  }

  /** So a canvas with two versions, deleted, created again and written once, already has a stale lookup. */
  lemma StaleIndex(c: CanvasState, s: Stored, canvasId: string, doc: Doc, ops: seq<Op>, actor: string, now: int, limit: int)
    requires LogOk(c) && |c.index| >= 2 && s.version == 0 && ops != []
    ensures var d := Appended(CreatedAgain(c, s), canvasId, doc, ops, actor, now);
            AfterSeq(d.log, SeqOfVersion(d.index, 1), LimitOf(limit)) != AfterVersion(d.log, 1, limit)
  {
    hide FirstMatching, SeqOfVersion;
    var again := CreatedAgain(c, s);
    CreatedAgainIsRecreated(c, s);
    AppendedRecreated(again, |c.index|, |c.log|, canvasId, doc, ops, actor, now);
    LookupAfterRecreationExactly(Appended(again, canvasId, doc, ops, actor, now), |c.index|, |c.log|, 1, limit);
  }
}
