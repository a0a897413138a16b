/** The inputs of a step: which nodes can be read, in what order, and how they are labelled. */
module Inputs {
  import opened Outcomes
  import opened Ordering
  import opened Documents
  import opened Operations
  import opened Plans

  /** What is read off a source node: the kind, the asset if there is one, and the value passed on. */
  datatype Reading = Reading(kind: string, assetId: string, value: string)

  /** A reading with its place among the readings of its kind, and where it came from. */
  datatype Input = Input(reading: Reading, number: nat, origin: Endpoint)

  function FirstVariant(n: Node): Option<Variant> {
    if n.result.Some? && |n.result.value.variants| > 0 then Some(n.result.value.variants[0]) else None
  }

  /** The asset of a resource node: its own, or else the first of its last result. */
  function AssetOf(n: Node): string {
    if Text(n.spec, "assetId") != "" then Text(n.spec, "assetId")
    else if FirstVariant(n).Some? then FirstVariant(n).value.assetId
    else ""
  }

  function ReadNode(n: Node): Outcome<Reading> {
    if n.ty == "prompt" then
      if Text(n.spec, "text") == "" then Err(InvalidSpec) else Ok(Reading("text", "", Text(n.spec, "text")))
    else if n.ty == "image" || n.ty == "video" || n.ty == "audio" then
      if AssetOf(n) == "" then Err(InvalidSpec) else Ok(Reading(n.ty, AssetOf(n), AssetOf(n)))
    else if Executable(n) then
      match FirstVariant(n)
      case None => Err(InvalidRequest)
      case Some(v) => Ok(Reading(v.kind, v.assetId, if v.assetId != "" then v.assetId else v.text))
    else if n.ty == "group" then Err(InvalidSpec)
    else Err(InvalidNodeType)
  }

  /** Whether a node can be an input: a prompt with a text, a resource with an asset, or a step that has a result. */
  predicate Readable(n: Node) {
    || (n.ty == "prompt" && Text(n.spec, "text") != "")
    || (n.ty in {"image", "video", "audio"} && AssetOf(n) != "")
    || (Executable(n) && FirstVariant(n).Some?)
  }

  lemma ReadableExactly(n: Node)
    ensures ReadNode(n).Ok? <==> Readable(n)
  {
  }

  /** Every node that feeds `x` can be read. */
  ghost predicate SourcesReadable(d: Doc, x: string) {
    forall u :: (u, x) in FlowGraph(d.edges) ==> u in d.nodes && Readable(d.nodes[u])
  }

  // ---------------------------------------------------------------- port order

  /** The order of an input port: that of the last one with this ID, 0 for an unknown one. */
  function OrderOf(ports: seq<Port>, id: string): int {
    if ports == [] then 0
    else if ports[|ports| - 1].id == id then ports[|ports| - 1].order
    else OrderOf(ports[..|ports| - 1], id)
  }

  predicate ComesBefore(ports: seq<Port>, e: Edge, f: Edge) {
    var i, j := OrderOf(ports, e.to.portId), OrderOf(ports, f.to.portId);
    i < j || (i == j && Leq(e.id, f.id))
  }

  function InsertEdge(ports: seq<Port>, e: Edge, es: seq<Edge>): seq<Edge> {
    if es == [] || ComesBefore(ports, e, es[0]) then [e] + es else [es[0]] + InsertEdge(ports, e, es[1..])
  }

  /** The edges by the order of the port they enter, and by ID within a port. */
  function ByPort(ports: seq<Port>, es: seq<Edge>): seq<Edge> {
    if es == [] then [] else InsertEdge(ports, es[0], ByPort(ports, es[1..]))
  }

  ghost predicate InPortOrder(ports: seq<Port>, es: seq<Edge>) {
    forall i, j :: 0 <= i < j < |es| ==> ComesBefore(ports, es[i], es[j])
  }

  lemma {:induction false} InsertKeepsEdges(ports: seq<Port>, e: Edge, es: seq<Edge>)
    ensures multiset(InsertEdge(ports, e, es)) == multiset(es) + multiset{e}
  {
    hide ComesBefore;
    if es != [] && !ComesBefore(ports, e, es[0]) {
      InsertKeepsEdges(ports, e, es[1..]);
      assert es == [es[0]] + es[1..];
    }
  }

  lemma {:induction false} InsertKeepsOrder(ports: seq<Port>, e: Edge, es: seq<Edge>)
    requires InPortOrder(ports, es)
    ensures InPortOrder(ports, InsertEdge(ports, e, es))
  {
    hide ComesBefore;
    if es == [] {
    } else if ComesBefore(ports, e, es[0]) {
      forall j | 0 <= j < |es|
        ensures ComesBefore(ports, e, es[j])
      {
        if j > 0 {
          BeforeTransitive(ports, e, es[0], es[j]);
        }
      }
    } else {
      var rest := InsertEdge(ports, e, es[1..]);
      InsertKeepsOrder(ports, e, es[1..]);
      InsertKeepsEdges(ports, e, es[1..]);
      BeforeTotal(ports, e, es[0]);
      forall j | 0 <= j < |rest|
        ensures ComesBefore(ports, es[0], rest[j])
      {
        assert rest[j] in multiset(rest);
        assert rest[j] == e || rest[j] in es[1..];
      }
    }
  }

  lemma BeforeTotal(ports: seq<Port>, e: Edge, f: Edge)
    ensures ComesBefore(ports, e, f) || ComesBefore(ports, f, e)
  {
    hide OrderOf, Leq;
    LeqTotal(e.id, f.id);
  }

  lemma BeforeTransitive(ports: seq<Port>, e: Edge, f: Edge, g: Edge)
    requires ComesBefore(ports, e, f) && ComesBefore(ports, f, g)
    ensures ComesBefore(ports, e, g)
  {
    hide OrderOf, Leq;
    if Leq(e.id, f.id) && Leq(f.id, g.id) {
      LeqTransitive(e.id, f.id, g.id);
    }
  }

  lemma NoEdgesInOrder(ports: seq<Port>)
    ensures InPortOrder(ports, [])
  {
  }

  /** Sorting puts every edge in its place and loses none. */
  lemma {:induction false} ByPortIsSorted(ports: seq<Port>, es: seq<Edge>)
    ensures InPortOrder(ports, ByPort(ports, es)) && multiset(ByPort(ports, es)) == multiset(es)
  {
    hide InPortOrder, ComesBefore;
    if es == [] {
      NoEdgesInOrder(ports);
    } else {
      ByPortIsSorted(ports, es[1..]);
      InsertKeepsOrder(ports, es[0], ByPort(ports, es[1..]));
      InsertKeepsEdges(ports, es[0], ByPort(ports, es[1..]));
      assert es == [es[0]] + es[1..];
    }
  }

  // ---------------------------------------------------------------- the inputs of one step

  function OfKind(inputs: seq<Input>, kind: string): nat {
    if inputs == [] then 0
    else OfKind(inputs[..|inputs| - 1], kind) + (if inputs[|inputs| - 1].reading.kind == kind then 1 else 0)
  }

  /** The sources read edge by edge, each numbered among those of its kind; the first that cannot be read decides. */
  function ReadAll(nodes: map<string, Node>, es: seq<Edge>): Outcome<seq<Input>> {
    if es == [] then Ok([])
    else
      var front := ReadAll(nodes, es[..|es| - 1]);
      var e := es[|es| - 1];
      if front.Err? then front
      else if e.from.nodeId !in nodes then Err(NotFound)
      else
        match ReadNode(nodes[e.from.nodeId])
        case Err(code) => Err(code)
        case Ok(r) => Ok(front.value + [Input(r, OfKind(front.value, r.kind) + 1, Endpoint(nodes[e.from.nodeId].id, e.from.portId))])
  }

  function InputsOf(d: Doc, x: string): Outcome<seq<Input>>
    requires x in d.nodes
  {
    ReadAll(d.nodes, ByPort(d.nodes[x].ports.inputs, UpstreamOf(d.edges, x)))
  }

  method ResolveInputs(d: Doc, x: string) returns (r: Outcome<seq<Input>>)
    requires x in d.nodes
    ensures r == InputsOf(d, x)
  {
    hide ReadNode, UpstreamOf, ByPort, ReadAll, OfKind;
    var es := ByPort(d.nodes[x].ports.inputs, UpstreamOf(d.edges, x));
    var inputs: seq<Input> := [];
    NothingRead(d.nodes);
    var counter: map<string, nat> := map[];
    var i := 0;
    while i < |es|
      invariant 0 <= i <= |es|
      invariant ReadAll(d.nodes, es[..i]) == Ok(inputs)
      invariant forall k :: (if k in counter then counter[k] else 0) == OfKind(inputs, k)
    {
      ReadOneMore(d.nodes, es, i);
      var e := es[i];
      if e.from.nodeId !in d.nodes {
        FirstRefusalDecides(d.nodes, es, i + 1);
        return Err(NotFound);
      }
      var src := d.nodes[e.from.nodeId];
      var reading := ReadNode(src);
      if reading.Err? {
        FirstRefusalDecides(d.nodes, es, i + 1);
        return Err(reading.code);
      }
      var kind := reading.value.kind;
      var number := (if kind in counter then counter[kind] else 0) + 1;
      counter := counter[kind := number];
      OneMoreOfKind(inputs, Input(reading.value, number, Endpoint(src.id, e.from.portId)));
      inputs := inputs + [Input(reading.value, number, Endpoint(src.id, e.from.portId))];
      i := i + 1;
    }
    assert es[..i] == es;
    return Ok(inputs);
  }

  lemma NothingRead(nodes: map<string, Node>)
    ensures ReadAll(nodes, []) == Ok([]) && forall k :: OfKind([], k) == 0
  {
  }

  lemma ReadOneMore(nodes: map<string, Node>, es: seq<Edge>, i: nat)
    requires i < |es| && ReadAll(nodes, es[..i]).Ok?
    ensures var front, next := ReadAll(nodes, es[..i]).value, ReadAll(nodes, es[..i + 1]);
      if es[i].from.nodeId !in nodes then next == Err(NotFound)
      else
        var src := nodes[es[i].from.nodeId];
        var r := ReadNode(src);
        if r.Err? then next == Err(r.code)
        else next == Ok(front + [Input(r.value, OfKind(front, r.value.kind) + 1, Endpoint(src.id, es[i].from.portId))])
  {
    hide ReadNode, OfKind;
    assert es[..i + 1][..i] == es[..i];
  }

  lemma OneMoreOfKind(inputs: seq<Input>, last: Input)
    ensures forall k :: OfKind(inputs + [last], k) == OfKind(inputs, k) + if last.reading.kind == k then 1 else 0
  {
    assert (inputs + [last])[..|inputs|] == inputs;
  }

  lemma {:induction false} FirstRefusalDecides(nodes: map<string, Node>, es: seq<Edge>, n: nat)
    requires n <= |es| && ReadAll(nodes, es[..n]).Err?
    ensures ReadAll(nodes, es) == ReadAll(nodes, es[..n])
    decreases |es|
  {
    hide ReadNode;
    if n == |es| {
      assert es[..n] == es;
    } else {
      assert es[..|es| - 1][..n] == es[..n];
      FirstRefusalDecides(nodes, es[..|es| - 1], n);
    }
  }

  lemma {:induction false} ReadAllExactly(nodes: map<string, Node>, es: seq<Edge>)
    ensures ReadAll(nodes, es).Ok? <==> forall i :: 0 <= i < |es| ==> es[i].from.nodeId in nodes && Readable(nodes[es[i].from.nodeId])
    decreases |es|
  {
    hide ReadNode, Readable;
    if es != [] {
      var n := |es| - 1;
      ReadAllExactly(nodes, es[..n]);
      assert forall i :: 0 <= i < n ==> es[..n][i] == es[i];
      if es[n].from.nodeId in nodes {
        ReadableExactly(nodes[es[n].from.nodeId]);
      }
    }
  }

  /** The inputs of a step are found exactly when every node that feeds it can be read. */
  lemma InputsExactly(d: Doc, x: string)
    requires x in d.nodes
    ensures InputsOf(d, x).Ok? <==> SourcesReadable(d, x)
  {
    hide UpstreamOf, ByPort, ReadAll, Readable;
    var up := UpstreamOf(d.edges, x);
    var es := ByPort(d.nodes[x].ports.inputs, up);
    ByPortIsSorted(d.nodes[x].ports.inputs, up);
    ReadAllExactly(d.nodes, es);
    if SourcesReadable(d, x) {
      forall i | 0 <= i < |es|
        ensures es[i].from.nodeId in d.nodes && Readable(d.nodes[es[i].from.nodeId])
      {
        assert es[i] in multiset(es);
        assert es[i] in multiset(up);
        var j :| 0 <= j < |up| && up[j] == es[i];
        var k := UpstreamIsIncoming(d.edges, x, j);
        assert (es[i].from.nodeId, x) in FlowGraph(d.edges);
      }
    }
    if InputsOf(d, x).Ok? {
      forall u | (u, x) in FlowGraph(d.edges)
        ensures u in d.nodes && Readable(d.nodes[u])
      {
        var k :| k in d.edges && d.edges[k].from.nodeId == u && d.edges[k].to.nodeId == x;
        var j := IncomingIsUpstream(d.edges, x, k);
        assert up[j] in multiset(up);
        assert up[j] in multiset(es);
        var i :| 0 <= i < |es| && es[i] == up[j];
      }
    }
  }

  // ---------------------------------------------------------------- what an input carries

  /** What is read off a node: a prompt's text, a resource's own asset or else its first result's, a step's first result. */
  lemma ReadingCarries(n: Node)
    requires ReadNode(n).Ok?
    ensures var r := ReadNode(n).value;
      && (n.ty == "prompt" ==> "text" in n.spec && n.spec["text"] == Str(r.value) && r.value != "" && r.kind == "text" && r.assetId == "")
      && (n.ty in {"image", "video", "audio"} ==>
            && r.kind == n.ty && r.value == r.assetId && r.assetId != ""
            && if "assetId" in n.spec && n.spec["assetId"].Str? && n.spec["assetId"].s != "" then r.assetId == n.spec["assetId"].s
               else n.result.Some? && n.result.value.variants != [] && r.assetId == n.result.value.variants[0].assetId)
      && (n.ty in {"generation", "run"} ==>
            && n.result.Some? && n.result.value.variants != []
            && var v := n.result.value.variants[0];
               r.kind == v.kind && r.assetId == v.assetId && r.value == (if v.assetId != "" then v.assetId else v.text))
      && n.ty in {"prompt", "image", "video", "audio", "generation", "run"}
  {
  }

  /** Input by input, a step is given what is read off the source of the edge in the same place. */
  lemma {:induction false} InputsInOrder(nodes: map<string, Node>, es: seq<Edge>, i: nat)
    requires ReadAll(nodes, es).Ok? && i < |es|
    ensures |ReadAll(nodes, es).value| == |es| && es[i].from.nodeId in nodes
    ensures var src := nodes[es[i].from.nodeId];
      && ReadNode(src) == Ok(ReadAll(nodes, es).value[i].reading)
      && ReadAll(nodes, es).value[i].origin == Endpoint(src.id, es[i].from.portId)
    decreases |es|
  {
    hide ReadNode;
    var n := |es| - 1;
    if n > 0 {
      InputsInOrder(nodes, es[..n], if i < n then i else 0);
    }
  }

  /** Why a node cannot be read, by its type. */
  lemma RefusedByType(n: Node)
    requires ReadNode(n).Err?
    ensures ReadNode(n)
         == if n.ty in {"generation", "run"} then Err(InvalidRequest)
            else if n.ty in {"prompt", "image", "video", "audio", "group"} then Err(InvalidSpec)
            else Err(InvalidNodeType)
  {
  }

  /** The order of a port: that of the last one of the ID, or 0 if there is none. */
  ghost predicate HasOrder(ports: seq<Port>, id: string, o: int) {
    if exists i :: 0 <= i < |ports| && ports[i].id == id then
      exists i :: 0 <= i < |ports| && ports[i].id == id && ports[i].order == o && forall j :: i < j < |ports| ==> ports[j].id != id
    else o == 0
  }

  lemma {:induction false} OrderOfIs(ports: seq<Port>, id: string)
    ensures HasOrder(ports, id, OrderOf(ports, id))
    decreases |ports|
  {
    if ports != [] {
      var n := |ports| - 1;
      OrderOfIs(ports[..n], id);
      if ports[n].id != id {
        assert forall i :: 0 <= i < n ==> ports[..n][i] == ports[i];
        if i :| 0 <= i < |ports| && ports[i].id == id {
          assert ports[..n][i].id == id;
          var k :| 0 <= k < n && ports[..n][k].id == id && ports[..n][k].order == OrderOf(ports[..n], id)
                   && forall j :: k < j < n ==> ports[..n][j].id != id;
          assert forall j :: k < j < |ports| ==> ports[j].id != id;
        }
        assert (exists i :: 0 <= i < n && ports[..n][i].id == id) ==> exists i :: 0 <= i < |ports| && ports[i].id == id;
      }
    }
  }

  /** Of two edges of the sorted list, the first enters a port of lower order, or one of the same order and has the lower ID. */
  lemma SortedByPort(ports: seq<Port>, es: seq<Edge>, i: nat, j: nat)
    requires i < j < |ByPort(ports, es)|
    ensures var e, f := ByPort(ports, es)[i], ByPort(ports, es)[j];
      exists o, p :: HasOrder(ports, e.to.portId, o) && HasOrder(ports, f.to.portId, p) && (o < p || (o == p && Leq(e.id, f.id)))
  {
    hide HasOrder, OrderOf, ByPort;
    ByPortIsSorted(ports, es);
    var e, f := ByPort(ports, es)[i], ByPort(ports, es)[j];
    OrderOfIs(ports, e.to.portId);
    OrderOfIs(ports, f.to.portId);
  }

  // ---------------------------------------------------------------- labels

  datatype Word = ImageWord | VideoWord | AudioWord | TextWord | GroupWord | OtherWord

  /** The word a label starts with; kinds without a word of their own share one. */
  function WordOf(kind: string): Word {
    if kind == "image" then ImageWord
    else if kind == "video" then VideoWord
    else if kind == "audio" then AudioWord
    else if kind == "text" then TextWord
    else if kind == "group" then GroupWord
    else OtherWord
  }

  /** Five kinds have a word of their own. */
  lemma OwnWords(kind: string)
    ensures WordOf(kind) == ImageWord <==> kind == "image"
    ensures WordOf(kind) == VideoWord <==> kind == "video"
    ensures WordOf(kind) == AudioWord <==> kind == "audio"
    ensures WordOf(kind) == TextWord <==> kind == "text"
    ensures WordOf(kind) == GroupWord <==> kind == "group"
  {
  }

  predicate SameLabel(a: Input, b: Input) {
    WordOf(a.reading.kind) == WordOf(b.reading.kind) && a.number == b.number
  }

  lemma {:induction false} OfKindGrows(inputs: seq<Input>, n: nat, kind: string)
    requires n <= |inputs|
    ensures OfKind(inputs[..n], kind) <= OfKind(inputs, kind)
    decreases |inputs|
  {
    if n == |inputs| {
      assert inputs[..n] == inputs;
    } else {
      assert inputs[..|inputs| - 1][..n] == inputs[..n];
      OfKindGrows(inputs[..|inputs| - 1], n, kind);
    }
  }

  lemma {:induction false} NumbersCount(nodes: map<string, Node>, es: seq<Edge>, i: nat)
    requires ReadAll(nodes, es).Ok? && i < |es|
    ensures |ReadAll(nodes, es).value| == |es|
    ensures var inputs := ReadAll(nodes, es).value;
            inputs[i].number == OfKind(inputs[..i], inputs[i].reading.kind) + 1
    decreases |es|
  {
    hide ReadNode;
    var n := |es| - 1;
    var front := ReadAll(nodes, es[..n]).value;
    if n > 0 {
      NumbersCount(nodes, es[..n], if i < n then i else 0);
    }
    assert ReadAll(nodes, es).value[..n] == front;
    if i < n {
      assert ReadAll(nodes, es).value[..i] == front[..i];
    }
  }

  /** Two inputs of one step carry the same label exactly when their kinds differ, share a word, and count the same. */
  lemma LabelsCollideExactly(nodes: map<string, Node>, es: seq<Edge>, i: nat, j: nat)
    requires ReadAll(nodes, es).Ok? && i < j < |es|
    ensures |ReadAll(nodes, es).value| == |es|
    ensures var inputs := ReadAll(nodes, es).value;
            var a, b := inputs[i].reading.kind, inputs[j].reading.kind;
            SameLabel(inputs[i], inputs[j])
            <==> a != b && WordOf(a) == OtherWord == WordOf(b) && OfKind(inputs[..i], a) == OfKind(inputs[..j], b)
  {
    hide ReadAll;
    NumbersCount(nodes, es, i);
    NumbersCount(nodes, es, j);
    var inputs := ReadAll(nodes, es).value;
    var a := inputs[i].reading.kind;
    assert inputs[..j][..i + 1] == inputs[..i + 1] && inputs[..i + 1][..i] == inputs[..i];
    OfKindGrows(inputs[..j], i + 1, a);
  }
}
