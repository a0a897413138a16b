/** Parent links put back: the children of a dissolved group, and the former parents of grouped nodes. */
module Regrouping {
  import opened Outcomes
  import opened Ordering
  import opened Digraphs
  import opened Documents
  import opened Schemas
  import opened Operations
  import opened WellFormed
  import opened CycleCheck
  import opened Batches

  /** The parent chain from `cur` ends within the depth cap. */
  predicate ChainEnds(nodes: map<string, Node>, cur: string, fuel: nat)
    decreases fuel
  {
    cur == "" || (fuel > 0 && (cur in nodes ==> ChainEnds(nodes, nodes[cur].parentId, fuel - 1)))
  }

  /** The children of a group can be put back under it. */
  predicate Readoptable(nodes: map<string, Node>, group: string) {
    ChildIds(nodes, group) == {} || ChainEnds(nodes, group, MaxGroupDepth)
  }

  // ---------------------------------------------------------------- parent chains

  /** Two node maps with the same parent links outside `s`, seen from a chain that never enters `s`. */
  lemma {:induction false} ChainAgrees(nodes: map<string, Node>, other: map<string, Node>, s: set<string>,
                                       cur: string, node: string, fuel: nat)
    requires forall k :: k in nodes && k !in s ==> k in other && other[k].parentId == nodes[k].parentId
    requires forall k :: k in other && k !in s ==> k in nodes
    requires forall x :: x in s ==> !Reaches(ParentGraph(nodes), cur, x)
    ensures ChainAvoids(nodes, cur, node, fuel) == ChainAvoids(other, cur, node, fuel)
    decreases fuel
  {
    ReachesSelf(ParentGraph(nodes), cur);
    if cur != "" && fuel > 0 && cur in nodes && nodes[cur].parentId != "" {
      var up := nodes[cur].parentId;
      forall x | x in s
        ensures !Reaches(ParentGraph(nodes), up, x)
      {
        if Reaches(ParentGraph(nodes), up, x) {
          StepThenReach(ParentGraph(nodes), cur, up, x);
        }
      }
      ChainAgrees(nodes, other, s, up, node, fuel - 1);
    }
  }

  /** In a forest, the chain above a node that does not reach `node` avoids it exactly when it is short enough. */
  lemma {:induction false} ChainAvoidsUnreached(nodes: map<string, Node>, cur: string, node: string, fuel: nat)
    requires "" !in nodes && !Reaches(ParentGraph(nodes), cur, node)
    ensures ChainAvoids(nodes, cur, node, fuel) == ChainEnds(nodes, cur, fuel)
    decreases fuel
  {
    ReachesSelf(ParentGraph(nodes), cur);
    if cur != "" && fuel > 0 && cur in nodes {
      var up := nodes[cur].parentId;
      if up != "" {
        if Reaches(ParentGraph(nodes), up, node) {
          StepThenReach(ParentGraph(nodes), cur, up, node);
        }
        ChainAvoidsUnreached(nodes, up, node, fuel - 1);
      }
    }
  }

  lemma ParentDoesNotReachChild(nodes: map<string, Node>, child: string)
    requires Acyclic(ParentGraph(nodes)) && child in nodes && nodes[child].parentId != ""
    ensures !Reaches(ParentGraph(nodes), nodes[child].parentId, child)
  {
    assert (child, nodes[child].parentId) in ParentGraph(nodes);
  }

  // ---------------------------------------------------------------- putting children back

  lemma ReadoptOne(d: Doc, cur: Doc, group: string, child: string, who: Stamp, table: Table)
    requires "" !in d.nodes && Acyclic(ParentGraph(d.nodes)) && ParentsOk(d.nodes)
    requires group != "" && child in ChildIds(d.nodes, group) && RectOk(d.nodes[child].rect)
    requires cur.nodes.Keys == d.nodes.Keys
    requires forall k :: k in d.nodes ==> cur.nodes[k] == d.nodes[k] || (k in ChildIds(d.nodes, group) && cur.nodes[k] == d.nodes[k].(parentId := ""))
    ensures ApplySetParent(cur, child, group)
         == if ChainEnds(d.nodes, group, MaxGroupDepth) then Ok(cur.(nodes := cur.nodes[child := d.nodes[child]]))
            else Err(InvalidSpec)
  {
    var kids := ChildIds(d.nodes, group);
    assert d.nodes[child].parentId == group && ParentOk(d.nodes, d.nodes[child].parentId);
    forall x | x in kids
      ensures !Reaches(ParentGraph(d.nodes), group, x)
    {
      ParentDoesNotReachChild(d.nodes, x);
    }
    ReachesSelf(ParentGraph(d.nodes), group);
    ChainAgrees(d.nodes, cur.nodes, kids, group, child, MaxGroupDepth);
    ChainAvoidsUnreached(d.nodes, group, child, MaxGroupDepth);
    assert cur.nodes[child].(parentId := group) == d.nodes[child];
    assert cur.nodes[group].ty == d.nodes[group].ty;
  }

  ghost function Elements(s: seq<string>): set<string> {
    set x | x in s
  }

  ghost function PartlyOrphaned(nodes: map<string, Node>, orphans: set<string>): map<string, Node> {
    map k | k in nodes :: if k in orphans then nodes[k].(parentId := "") else nodes[k]
  }

  lemma ReadoptStep(d: Doc, edges: map<string, Edge>, group: string, kids: seq<string>, n: nat, who: Stamp,
                    table: Table)
    requires "" !in d.nodes && Acyclic(ParentGraph(d.nodes)) && ParentsOk(d.nodes)
    requires group != "" && ChainEnds(d.nodes, group, MaxGroupDepth)
    requires Enumerates(kids, ChildIds(d.nodes, group)) && n < |kids|
    requires forall k :: k in d.nodes ==> RectOk(d.nodes[k].rect)
    ensures ApplySetParent(d.(nodes := PartlyOrphaned(d.nodes, Elements(kids[n..])), edges := edges), kids[n], group)
         == Ok(d.(nodes := PartlyOrphaned(d.nodes, Elements(kids[n + 1..])), edges := edges))
  {
    var cur := d.(nodes := PartlyOrphaned(d.nodes, Elements(kids[n..])), edges := edges);
    assert kids[n] in kids;
    forall k | k in Elements(kids[n..])
      ensures k in ChildIds(d.nodes, group)
    {
      assert k in kids;
    }
    ReadoptOne(d, cur, group, kids[n], who, table);
    LastOrphan(d.nodes, kids, n);
  }

  lemma DispatchSetParent(table: Table, d: Doc, id: string, parent: string, who: Stamp)
    ensures ApplyOp(table, d, SetParent(id, parent), who) == ApplySetParent(d, id, parent)
  {
  }

  lemma LastOrphan(nodes: map<string, Node>, kids: seq<string>, n: nat)
    requires Distinct(kids) && n < |kids| && kids[n] in nodes
    ensures PartlyOrphaned(nodes, Elements(kids[n..]))[kids[n] := nodes[kids[n]]]
         == PartlyOrphaned(nodes, Elements(kids[n + 1..]))
  {
    var x := kids[n];
    assert kids[n..] == [x] + kids[n + 1..];
    assert x !in kids[n + 1..];
  }

  /** Setting the parent of every child again undoes the move to the top level, if the chain above is short enough. */
  lemma ReadoptAll(table: Table, d: Doc, edges: map<string, Edge>, group: string, kids: seq<string>, who: Stamp)
    requires "" !in d.nodes && Acyclic(ParentGraph(d.nodes)) && ParentsOk(d.nodes)
    requires group != "" && ChainEnds(d.nodes, group, MaxGroupDepth)
    requires Enumerates(kids, ChildIds(d.nodes, group))
    requires forall k :: k in d.nodes ==> RectOk(d.nodes[k].rect)
    ensures ApplyAll(table, d.(nodes := PartlyOrphaned(d.nodes, Elements(kids)), edges := edges), SetParents(kids, group), who)
         == Ok(d.(nodes := PartlyOrphaned(d.nodes, {}), edges := edges))
  {
    hide ApplyOp;
    var n := |kids|;
    var docs := seq(n + 1, i requires 0 <= i <= n => d.(nodes := PartlyOrphaned(d.nodes, Elements(kids[i..])), edges := edges));
    var ops := SetParents(kids, group);
    forall i | 0 <= i < n
      ensures ApplyOp(table, docs[i], ops[i], who) == Ok(docs[i + 1])
    {
      ReadoptStep(d, edges, group, kids, i, who, table);
      DispatchSetParent(table, docs[i], kids[i], group, who);
    }
    ApplyAllSteps(table, docs, ops, who);
    assert kids[0..] == kids && Elements(kids[n..]) == {};
  }

  lemma AllOrphaned(nodes: map<string, Node>, group: string)
    ensures Elements(ChildrenOf(nodes, group)) == ChildIds(nodes, group)
    ensures PartlyOrphaned(nodes, ChildIds(nodes, group)) == Orphaned(nodes, group)
    ensures PartlyOrphaned(nodes, {}) == nodes
    ensures Enumerates(ChildrenOf(nodes, group), ChildIds(nodes, group))
  {
  }

  /** The whole list of children, and what happens when the chain above the group is too long. */
  lemma Readopt(table: Table, d: Doc, edges: map<string, Edge>, group: string, who: Stamp)
    requires "" !in d.nodes && Acyclic(ParentGraph(d.nodes)) && ParentsOk(d.nodes) && group != ""
    requires forall k :: k in d.nodes ==> RectOk(d.nodes[k].rect)
    ensures Readoptable(d.nodes, group) ==>
      ApplyAll(table, d.(nodes := Orphaned(d.nodes, group), edges := edges), SetParents(ChildrenOf(d.nodes, group), group), who)
        == Ok(d.(edges := edges))
    ensures !Readoptable(d.nodes, group) ==>
      ApplyAll(table, d.(nodes := Orphaned(d.nodes, group), edges := edges), SetParents(ChildrenOf(d.nodes, group), group), who).Err?
  {
    hide ApplyOp;
    var kids := ChildrenOf(d.nodes, group);
    AllOrphaned(d.nodes, group);
    if ChildIds(d.nodes, group) == {} {
      assert SetParents(kids, group) == [];
    } else if ChainEnds(d.nodes, group, MaxGroupDepth) {
      ReadoptAll(table, d, edges, group, kids, who);
    } else {
      ReadoptRefused(table, d, edges, group, who);
    }
  }

  lemma ReadoptRefused(table: Table, d: Doc, edges: map<string, Edge>, group: string, who: Stamp)
    requires "" !in d.nodes && Acyclic(ParentGraph(d.nodes)) && ParentsOk(d.nodes) && group != ""
    requires forall k :: k in d.nodes ==> RectOk(d.nodes[k].rect)
    requires !Readoptable(d.nodes, group)
    ensures ApplyAll(table, d.(nodes := Orphaned(d.nodes, group), edges := edges), SetParents(ChildrenOf(d.nodes, group), group), who).Err?
  {
    hide ApplyOp;
    var kids := ChildrenOf(d.nodes, group);
    var ops := SetParents(kids, group);
    var start := d.(nodes := Orphaned(d.nodes, group), edges := edges);
    AllOrphaned(d.nodes, group);
    assert kids[0] in kids;
    ReadoptOne(d, start, group, kids[0], who, table);
    DispatchSetParent(table, start, kids[0], group, who);
    assert ops[..1] == [ops[0]];
    ApplyAllOne(table, start, ops[0], who);
    ApplyAllFails(table, start, ops, who, 1);
  }

  // ---------------------------------------------------------------- undoing a group

  /** Each member's parent can be put back: it was in the group already, or is listed once and its old chain is short. */
  predicate MembersRestorable(nodes: map<string, Node>, ids: seq<string>, group: string) {
    forall k :: k in ids ==>
      k in nodes && (nodes[k].parentId == group || (multiset(ids)[k] == 1 && ChainEnds(nodes, nodes[k].parentId, MaxGroupDepth)))
  }

  /** When grouping is undone: members as above, and a new rectangle, if it is taken, starts where the old one did. */
  predicate GroupRestorable(nodes: map<string, Node>, ids: seq<string>, group: string, given: Option<Rect>) {
    group in nodes && MembersRestorable(nodes, ids, group)
    && var r := GroupRect(nodes, ids, group, given);
       RectOk(r) ==> r.x == nodes[group].rect.x && r.y == nodes[group].rect.y
  }

  /** What grouping and its undoing rely on: a group, and members that are not groups. */
  ghost predicate Groupable(nodes: map<string, Node>, ids: seq<string>, group: string) {
    && "" !in nodes && Acyclic(ParentGraph(nodes)) && ParentsOk(nodes)
    && (forall k :: k in nodes ==> RectOk(nodes[k].rect))
    && group in nodes && nodes[group].ty == "group"
    && (forall k :: k in ids ==> k in nodes && nodes[k].ty != "group")
    && ChainEnds(nodes, group, MaxGroupDepth)
  }

  /** The nodes while parents are being put back: `done` lists the entries applied so far. */
  function Regrouped(nodes: map<string, Node>, ids: seq<string>, done: seq<string>, group: string): map<string, Node> {
    map k | k in nodes :: if k in ids && multiset(done)[k] != 1 then nodes[k].(parentId := group) else nodes[k]
  }

  /** The parent recorded for entry `i`: the old one at the first mention of a node, the group itself later. */
  function ParentAtTurn(nodes: map<string, Node>, ids: seq<string>, group: string, i: nat): string
    requires i < |ids| && ids[i] in nodes
  {
    if ids[i] in ids[..i] then group else nodes[ids[i]].parentId
  }

  lemma AdoptStep(nodes: map<string, Node>, ids: seq<string>, group: string)
    requires ids != [] && Adopt(nodes, ids, group).Ok?
    ensures Adopt(nodes, ids[..|ids| - 1], group).Ok?
    ensures var mid := Adopt(nodes, ids[..|ids| - 1], group).value; var id := ids[|ids| - 1];
            && id in mid && id != group && mid[id].ty != "group"
            && Adopt(nodes, ids, group).value == mid[id := mid[id].(parentId := group)]
  {
    hide CheckParent;
  }

  lemma {:induction false} AdoptIs(nodes: map<string, Node>, ids: seq<string>, group: string)
    requires Adopt(nodes, ids, group).Ok?
    ensures Adopt(nodes, ids, group).value == Regrouped(nodes, ids, [], group)
    ensures forall k :: k in ids ==> k in nodes && k != group && nodes[k].ty != "group"
    decreases |ids|
  {
    hide Adopt, Regrouped;
    if ids == [] {
      NothingAdopted(nodes, ids, group);
    } else {
      var n := |ids| - 1;
      AdoptStep(nodes, ids, group);
      AdoptIs(nodes, ids[..n], group);
      AdoptsOneMore(nodes, ids, group);
      assert ids == ids[..n] + [ids[n]];
    }
  }

  lemma NothingAdopted(nodes: map<string, Node>, ids: seq<string>, group: string)
    requires ids == []
    ensures Adopt(nodes, ids, group).value == Regrouped(nodes, ids, [], group)
  {
  }

  lemma AdoptsOneMore(nodes: map<string, Node>, ids: seq<string>, group: string)
    requires ids != [] && ids[|ids| - 1] in Regrouped(nodes, ids[..|ids| - 1], [], group)
    ensures var mid := Regrouped(nodes, ids[..|ids| - 1], [], group); var id := ids[|ids| - 1];
            && id in nodes && mid[id].ty == nodes[id].ty
            && mid[id := mid[id].(parentId := group)] == Regrouped(nodes, ids, [], group)
  {
    assert ids == ids[..|ids| - 1] + [ids[|ids| - 1]];
  }

  lemma AdoptInverseStep(nodes: map<string, Node>, ids: seq<string>, group: string)
    requires ids != [] && Adopt(nodes, ids, group).Ok? && forall k :: k in ids ==> k in nodes
    ensures var n := |ids| - 1;
      AdoptInverse(nodes, ids, group)
      == AdoptInverse(nodes, ids[..n], group) + [SetParent(ids[n], ParentAtTurn(nodes, ids, group, n))]
  {
    hide CheckParent, Adopt;
    var n := |ids| - 1;
    AdoptStep(nodes, ids, group);
    AdoptIs(nodes, ids[..n], group);
    assert ids[n] in ids;
  }

  lemma {:induction false} AdoptInverseIs(nodes: map<string, Node>, ids: seq<string>, group: string)
    requires Adopt(nodes, ids, group).Ok? && forall k :: k in ids ==> k in nodes
    ensures |AdoptInverse(nodes, ids, group)| == |ids|
    ensures forall i :: 0 <= i < |ids| ==>
      AdoptInverse(nodes, ids, group)[i] == SetParent(ids[i], ParentAtTurn(nodes, ids, group, i))
    decreases |ids|
  {
    hide Adopt, AdoptInverse, ParentAtTurn;
    if ids == [] {
      NothingRecorded(nodes, group);
    } else {
      var n := |ids| - 1;
      AdoptStep(nodes, ids, group);
      AdoptInverseStep(nodes, ids, group);
      AdoptInverseIs(nodes, ids[..n], group);
      forall i | 0 <= i < n
        ensures ParentAtTurn(nodes, ids[..n], group, i) == ParentAtTurn(nodes, ids, group, i)
      {
        SameTurn(nodes, ids, group, n, i);
      }
    }
  }

  lemma NothingRecorded(nodes: map<string, Node>, group: string)
    ensures AdoptInverse(nodes, [], group) == []
  {
  }

  lemma SameTurn(nodes: map<string, Node>, ids: seq<string>, group: string, n: nat, i: nat)
    requires i < n <= |ids| && ids[i] in nodes
    ensures ids[..n][i] == ids[i] && ParentAtTurn(nodes, ids[..n], group, i) == ParentAtTurn(nodes, ids, group, i)
  {
    assert ids[..n][..i] == ids[..i];
  }

  /** Everything above a group is a group. */
  lemma GroupsReachGroups(nodes: map<string, Node>, a: string, b: string)
    requires ParentsOk(nodes) && a in nodes && nodes[a].ty == "group" && Reaches(ParentGraph(nodes), a, b)
    ensures b in nodes && nodes[b].ty == "group"
  {
    var groups := set k | k in nodes && nodes[k].ty == "group";
    forall x, y | (x, y) in ParentGraph(nodes) && x in groups
      ensures y in groups
    {
      assert ParentOk(nodes, nodes[x].parentId);
    }
    ClosedContains(ParentGraph(nodes), groups, a, b);
  }

  /** While parents are put back, a chain that starts at a group is the old one. */
  lemma ChainsStay(nodes: map<string, Node>, ids: seq<string>, done: seq<string>, group: string, up: string, node: string)
    requires Groupable(nodes, ids, group) && up in nodes && nodes[up].ty == "group" && node in ids
    ensures ChainAvoids(Regrouped(nodes, ids, done, group), up, node, MaxGroupDepth) == ChainEnds(nodes, up, MaxGroupDepth)
  {
    var s := set k | k in ids;
    forall x | x in s
      ensures !Reaches(ParentGraph(nodes), up, x)
    {
      if Reaches(ParentGraph(nodes), up, x) {
        GroupsReachGroups(nodes, up, x);
      }
    }
    ChainAgrees(nodes, Regrouped(nodes, ids, done, group), s, up, node, MaxGroupDepth);
    ChainAvoidsUnreached(nodes, up, node, MaxGroupDepth);
  }

  /** One entry of the list is accepted exactly when the chain above the parent it names is short enough. */
  lemma PutParentBack(table: Table, d: Doc, ids: seq<string>, group: string, i: nat, who: Stamp)
    requires Groupable(d.nodes, ids, group) && i < |ids|
    ensures ids[i] in d.nodes
    ensures var p := ParentAtTurn(d.nodes, ids, group, i);
      ApplyOp(table, d.(nodes := Regrouped(d.nodes, ids, ids[..i], group)), SetParent(ids[i], p), who)
      == if ChainEnds(d.nodes, p, MaxGroupDepth) then Ok(d.(nodes := Regrouped(d.nodes, ids, ids[..i + 1], group)))
         else Err(InvalidSpec)
  {
    hide ChainEnds, ChainAvoids, Acyclic, ParentGraph;
    var p, x := ParentAtTurn(d.nodes, ids, group, i), ids[i];
    var cur := Regrouped(d.nodes, ids, ids[..i], group);
    assert x in ids && ParentOk(d.nodes, d.nodes[x].parentId);
    RegroupedOnce(d.nodes, ids, group, i);
    if p == "" {
      EmptyChainEnds(d.nodes);
    } else {
      ChainsStay(d.nodes, ids, ids[..i], group, p, x);
      assert cur[p].ty == "group" && p != x;
    }
    DispatchSetParent(table, d.(nodes := cur), x, p, who);
  }

  lemma EmptyChainEnds(nodes: map<string, Node>)
    ensures ChainEnds(nodes, "", MaxGroupDepth)
  {
  }

  lemma RegroupedOnce(nodes: map<string, Node>, ids: seq<string>, group: string, i: nat)
    requires i < |ids| && ids[i] in nodes
    ensures var cur := Regrouped(nodes, ids, ids[..i], group);
      cur[ids[i] := cur[ids[i]].(parentId := ParentAtTurn(nodes, ids, group, i))] == Regrouped(nodes, ids, ids[..i + 1], group)
  {
    assert ids[..i + 1] == ids[..i] + [ids[i]];
    assert ids[i] in ids[..i] <==> multiset(ids[..i])[ids[i]] > 0;
  }

  /** The whole list of entries. */
  lemma {:induction false} PutParentsBack(table: Table, d: Doc, ids: seq<string>, group: string, n: nat, ops: seq<Op>, who: Stamp)
    requires Groupable(d.nodes, ids, group) && n <= |ids| && |ops| == n
    requires forall i :: 0 <= i < n ==> ops[i] == SetParent(ids[i], ParentAtTurn(d.nodes, ids, group, i))
    ensures ApplyAll(table, d.(nodes := Regrouped(d.nodes, ids, [], group)), ops, who)
      == if forall i :: 0 <= i < n ==> ChainEnds(d.nodes, ParentAtTurn(d.nodes, ids, group, i), MaxGroupDepth) then
           Ok(d.(nodes := Regrouped(d.nodes, ids, ids[..n], group)))
         else Err(InvalidSpec)
  {
    hide ApplyOp, Groupable, ChainEnds, Regrouped, ParentAtTurn;
    if n == 0 {
      assert ids[..0] == [] && ops == [];
    } else {
      PutParentsBack(table, d, ids, group, n - 1, ops[..n - 1], who);
      PutParentBack(table, d, ids, group, n - 1, who);
    }
  }

  /** All entries are accepted and all nodes are back exactly when each member's parent can be put back. */
  lemma AllBack(nodes: map<string, Node>, ids: seq<string>, group: string)
    requires (forall k :: k in ids ==> k in nodes) && ChainEnds(nodes, group, MaxGroupDepth)
    ensures (Regrouped(nodes, ids, ids, group) == nodes
             && forall i :: 0 <= i < |ids| ==> ChainEnds(nodes, ParentAtTurn(nodes, ids, group, i), MaxGroupDepth))
       <==> MembersRestorable(nodes, ids, group)
  {
    hide ChainEnds;
    var back := Regrouped(nodes, ids, ids, group);
    if MembersRestorable(nodes, ids, group) {
      forall k | k in nodes
        ensures back[k] == nodes[k]
      {
      }
      assert back == nodes;
    }
    if back == nodes && forall i :: 0 <= i < |ids| ==> ChainEnds(nodes, ParentAtTurn(nodes, ids, group, i), MaxGroupDepth) {
      forall k | k in ids && nodes[k].parentId != group
        ensures multiset(ids)[k] == 1 && ChainEnds(nodes, nodes[k].parentId, MaxGroupDepth)
      {
        assert back[k] == nodes[k];
        var i :| 0 <= i < |ids| && ids[i] == k;
        OnceIsFirst(ids, i);
        assert ChainEnds(nodes, ParentAtTurn(nodes, ids, group, i), MaxGroupDepth);
      }
    }
  }

  lemma OnceIsFirst(ids: seq<string>, i: nat)
    requires i < |ids| && multiset(ids)[ids[i]] == 1
    ensures ids[i] !in ids[..i]
  {
    assert ids == ids[..i] + [ids[i]] + ids[i + 1..];
    assert multiset(ids) == multiset(ids[..i]) + multiset{ids[i]} + multiset(ids[i + 1..]);
  }

  lemma {:induction false} AvoidingChainEnds(nodes: map<string, Node>, cur: string, node: string, fuel: nat)
    requires ChainAvoids(nodes, cur, node, fuel)
    ensures ChainEnds(nodes, cur, fuel)
    decreases fuel
  {
    if cur != "" && cur in nodes {
      AvoidingChainEnds(nodes, nodes[cur].parentId, node, fuel - 1);
    }
  }

  lemma {:induction false} FirstAdopted(nodes: map<string, Node>, ids: seq<string>, group: string)
    requires ids != [] && Adopt(nodes, ids, group).Ok?
    ensures CheckParent(nodes, ids[0], group).Pass?
    decreases |ids|
  {
    hide CheckParent;
    if |ids| > 1 {
      FirstAdopted(nodes, ids[..|ids| - 1], group);
    } else {
      assert ids[..0] == [];
    }
  }

  lemma GroupedIsGroupable(table: Table, d: Doc, ids: seq<string>, group: string, given: Option<Rect>)
    requires WF(table, d) && ApplyGroup(d, ids, group, given).Ok?
    ensures Groupable(d.nodes, ids, group) && group !in ids
  {
    hide Adopt, GroupRect, NodeOk, Acyclic;
    AdoptIs(d.nodes, ids, group);
    FirstAdopted(d.nodes, ids, group);
    AvoidingChainEnds(d.nodes, group, ids[0], MaxGroupDepth);
    RectsOk(table, d);
  }

  lemma RectsOk(table: Table, d: Doc)
    requires NodesOk(table, d.nodes)
    ensures "" !in d.nodes && forall k :: k in d.nodes ==> RectOk(d.nodes[k].rect)
  {
  }

  /** The same nodes but for their rectangles. */
  ghost predicate SameTree(a: map<string, Node>, b: map<string, Node>) {
    a.Keys == b.Keys && forall k :: k in a ==> a[k].parentId == b[k].parentId && a[k].ty == b[k].ty
  }

  lemma {:induction false} ChainEndsSame(a: map<string, Node>, b: map<string, Node>, cur: string, fuel: nat)
    requires SameTree(a, b)
    ensures ChainEnds(a, cur, fuel) == ChainEnds(b, cur, fuel)
    decreases fuel
  {
    if cur != "" && fuel > 0 && cur in a {
      ChainEndsSame(a, b, a[cur].parentId, fuel - 1);
    }
  }

  lemma GroupableSame(a: map<string, Node>, b: map<string, Node>, ids: seq<string>, group: string)
    requires Groupable(a, ids, group) && SameTree(a, b) && forall k :: k in b ==> RectOk(b[k].rect)
    ensures Groupable(b, ids, group)
    ensures MembersRestorable(a, ids, group) == MembersRestorable(b, ids, group)
    ensures forall i :: 0 <= i < |ids| ==> ParentAtTurn(a, ids, group, i) == ParentAtTurn(b, ids, group, i)
  {
    hide ChainEnds, Acyclic;
    assert ParentGraph(a) == ParentGraph(b);
    forall k | k in b
      ensures ParentOk(b, b[k].parentId)
    {
      assert ParentOk(a, a[k].parentId);
    }
    forall x
      ensures ChainEnds(a, x, MaxGroupDepth) == ChainEnds(b, x, MaxGroupDepth)
    {
      ChainEndsSame(a, b, x, MaxGroupDepth);
    }
  }

  /** The members of the group alone: their parents come back exactly when `MembersRestorable` says so. */
  lemma UndoAdoption(table: Table, d: Doc, ids: seq<string>, group: string, ops: seq<Op>, who: Stamp)
    requires Groupable(d.nodes, ids, group) && |ops| == |ids|
    requires forall i :: 0 <= i < |ids| ==> ops[i] == SetParent(ids[i], ParentAtTurn(d.nodes, ids, group, i))
    ensures var r := ApplyAll(table, d.(nodes := Regrouped(d.nodes, ids, [], group)), ops, who);
      && (MembersRestorable(d.nodes, ids, group) <==> r == Ok(d))
      && (r.Ok? ==> r.value == d.(nodes := Regrouped(d.nodes, ids, ids, group)))
  {
    hide ApplyAll, ChainEnds, Regrouped, ParentAtTurn, MembersRestorable, Acyclic;
    PutParentsBack(table, d, ids, group, |ids|, ops, who);
    assert ids[..|ids|] == ids;
    AllBack(d.nodes, ids, group);
    assert d.(nodes := d.nodes) == d;
  }

  /** The last entry gives the group its old size, wherever it stands. */
  lemma UndoGroupSize(table: Table, d: Doc, now: Doc, group: string, who: Stamp)
    requires group in d.nodes && group in now.nodes && RectOk(d.nodes[group].rect) && RectOk(now.nodes[group].rect)
    requires now.nodes[group] == d.nodes[group].(rect := now.nodes[group].rect)
    ensures var r := now.nodes[group].rect; var was := d.nodes[group].rect;
      ApplyOp(table, now, ResizeNode(group, was.w, was.h, false), who) == Ok(d)
      <==> now == d.(nodes := d.nodes[group := d.nodes[group].(rect := r)]) && r.x == was.x && r.y == was.y
  {
    var r, was := now.nodes[group].rect, d.nodes[group].rect;
    var back := now.(nodes := now.nodes[group := d.nodes[group].(rect := r.(w := was.w, h := was.h))]);
    assert ApplyOp(table, now, ResizeNode(group, was.w, was.h, false), who) == Ok(back);
    if back == d {
      assert now.nodes == d.nodes[group := d.nodes[group].(rect := r)] by {
        assert forall k :: k in now.nodes && k != group ==> now.nodes[k] == back.nodes[k];
        assert now.nodes.Keys == back.nodes.Keys;
      }
      assert back.nodes[group] == d.nodes[group];
    }
    if now == d.(nodes := d.nodes[group := d.nodes[group].(rect := r)]) && r.x == was.x && r.y == was.y {
      assert back.nodes == d.nodes;
    }
  }

  /** Grouping is undone by its recorded list exactly when `GroupRestorable` holds of the document it met. */
  lemma UndoGroup(table: Table, d: Doc, ids: seq<string>, group: string, given: Option<Rect>, who: Stamp)
    requires WF(table, d) && ApplyGroup(d, ids, group, given).Ok?
    ensures group in d.nodes
    ensures ApplyAll(table, ApplyGroup(d, ids, group, given).value,
                     AdoptInverse(d.nodes, ids, group)
                     + (if RectOk(GroupRect(d.nodes, ids, group, given)) then
                          [ResizeNode(group, d.nodes[group].rect.w, d.nodes[group].rect.h, false)] else []), who) == Ok(d)
       <==> GroupRestorable(d.nodes, ids, group, given)
  {
    hide WF, ApplyOp, ApplyAll, Adopt, AdoptInverse, GroupRect, MembersRestorable, Groupable, RectOk, ParentAtTurn, Regrouped, SameTree;
    var r := GroupRect(d.nodes, ids, group, given);
    var ops := AdoptInverse(d.nodes, ids, group);
    GroupedIsGroupable(table, d, ids, group, given);
    AdoptIs(d.nodes, ids, group);
    AdoptInverseIs(d.nodes, ids, group);
    if !RectOk(r) {
      assert ops + [] == ops;
      UndoAdoption(table, d, ids, group, ops, who);
    } else {
      var sized := d.(nodes := d.nodes[group := d.nodes[group].(rect := r)]);
      var size := ResizeNode(group, d.nodes[group].rect.w, d.nodes[group].rect.h, false);
      GroupableRects(d.nodes, ids, group);
      ResizedBeforeRegrouping(d.nodes, ids, group, r);
      GroupableSame(d.nodes, sized.nodes, ids, group);
      UndoAdoption(table, sized, ids, group, ops, who);
      var after := ApplyGroup(d, ids, group, given).value;
      ApplyAllSnoc(table, after, ops, size, who);
      var mid := ApplyAll(table, after, ops, who);
      if mid.Ok? {
        UndoGroupSize(table, d, mid.value, group, who);
      }
    }
  }

  lemma GroupableRects(nodes: map<string, Node>, ids: seq<string>, group: string)
    requires Groupable(nodes, ids, group)
    ensures group in nodes && (forall k :: k in nodes ==> RectOk(nodes[k].rect)) && group !in ids
  {
  }

  lemma ResizedBeforeRegrouping(nodes: map<string, Node>, ids: seq<string>, group: string, r: Rect)
    requires group in nodes && group !in ids
    ensures Regrouped(nodes, ids, [], group)[group := nodes[group].(rect := r)]
         == Regrouped(nodes[group := nodes[group].(rect := r)], ids, [], group)
    ensures SameTree(nodes, nodes[group := nodes[group].(rect := r)])
    ensures group in Regrouped(nodes[group := nodes[group].(rect := r)], ids, ids, group)
    ensures Regrouped(nodes[group := nodes[group].(rect := r)], ids, ids, group)[group] == nodes[group].(rect := r)
  {
  }
}
