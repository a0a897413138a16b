/** A canvas on which a compiled plan puts a step before the step that feeds it. */
module LatePlan {
  import opened Outcomes
  import opened Ordering
  import opened Digraphs
  import opened Documents
  import opened Schemas
  import opened SchemaDeclarations
  import opened Operations
  import opened WellFormed
  import opened Plans
  import opened Inputs
  import opened Compiling
  import opened Execution
  import opened Reports

  const RefPort := Port("ref", "ref", "image", true, false, 1)
  const OutPort := Port("out", "out", "image", false, false, 0)

  /** The schema of generation nodes, with the ports and the field used here. */
  const Generation := Declaration(Ports([RefPort], [OutPort]), map["capability" := FString], ["capability"])

  const Declared: map<string, Declaration> := map["generation" := Generation]

  const Capability := "image.generate"
  const Config: map<string, Value> := map["capability" := Str(Capability)]

  function Generator(id: string, result: Option<NodeResult>): Node {
    Node(id, "generation", "", Rect(0.0, 0.0, 100.0, 100.0), 0, "", Generation.ports, Config, "idle", result, None, false, map[])
  }

  /** One image, made by an earlier run. */
  const Earlier := NodeResult([Variant("picture", "", "image", "succeeded", "")], 0, "r", "s")

  const Link := Edge("e", Endpoint("b", "out"), Endpoint("a", "ref"), "image", "u", 1)

  /** A generation node "a" fed by a generation node "b" that has run before. */
  const LateSource := EmptyDoc.(
    nodes := map["a" := Generator("a", None), "b" := Generator("b", Some(Earlier))],
    edges := map["e" := Link])

  // ---------------------------------------------------------------- it is well formed

  lemma CapabilityIsKnown()
    ensures ValidCapability(Capability) && Trimmed(Capability) == Capability
  {
    assert Capability[0] == 'i' && Capability[|Capability| - 1] == 'e';
    assert TrimLeft(Capability) == Capability && TrimRight(Capability) == Capability;
  }

  lemma ConfigIsAccepted()
    ensures Judge("generation", Generation, Config) == Accepted
  {
    hide TrimLeft, TrimRight, ValidCapability;
    CapabilityIsKnown();
    assert Config.Keys == {"capability"};
    assert Config["capability"] == Str(Capability);
    assert FieldAccepts(Generation.fields["capability"], Config["capability"]);
  }

  lemma GeneratorOk(id: string, result: Option<NodeResult>)
    ensures NodeOk(TableOf(Declared), Generator(id, result))
  {
    hide Judge;
    ConfigIsAccepted();
    assert "generation" in Declared && Declared["generation"] == Generation;
    assert ValidNodeTypeId("generation");
    assert TableOf(Declared)["generation"].verdict(Config) == Judge("generation", Generation, Config);
  }

  lemma NodesAreOk()
    ensures NodesOk(TableOf(Declared), LateSource.nodes) && ParentsOk(LateSource.nodes)
  {
    GeneratorOk("a", None);
    GeneratorOk("b", Some(Earlier));
    hide NodeOk, TableOf;
  }

  lemma EdgesAreOk()
    ensures EdgesOk(LateSource.nodes, LateSource.edges) && SingleInputs(LateSource.nodes, LateSource.edges)
  {
    assert FindPort([RefPort], "ref") == Some(RefPort);
    assert FindPort([OutPort], "out") == Some(OutPort);
  }

  lemma FlowIs()
    ensures FlowGraph(LateSource.edges) == {("b", "a")}
    ensures Acyclic(FlowGraph(LateSource.edges)) && Acyclic(ParentGraph(LateSource.nodes))
  {
    assert "e" in LateSource.edges;
    assert FlowGraph(LateSource.edges) == {("b", "a")};
    RankMeansAcyclic(FlowGraph(LateSource.edges), map["b" := 0, "a" := 1]);
    RankMeansAcyclic(ParentGraph(LateSource.nodes), map[]);
  }

  lemma LateSourceIsWellFormed()
    ensures WF(TableOf(Declared), LateSource)
  {
    hide NodesOk, EdgesOk, SingleInputs, ParentsOk, Acyclic, ParentGraph, FlowGraph, TableOf;
    NodesAreOk();
    EdgesAreOk();
    FlowIs();
    assert LateSource.nodes.Keys == {"a", "b"};
    assert LateSource.edges.Keys == {"e"};
  }

  // ---------------------------------------------------------------- it compiles, out of order

  lemma BothAreSteps()
    ensures forall x :: IsStepNode(LateSource, x) <==> x == "a" || x == "b"
  {
  }

  lemma LateSourceNeeds()
    ensures Needed(LateSource, ["a"]) == {"a", "b"}
  {
    hide FlowGraph, WF, Collectable, IsStepNode, Reaches, TableOf;
    var d := LateSource;
    FlowIs();
    LateSourceIsWellFormed();
    WellFormedIsCollectable(TableOf(Declared), d);
    BothAreSteps();
    ReachesSelf(CollectGraph(d), "a");
    assert NeededFor(d, ["a"], ["a"][0]);
    SourceIsNeeded(d, ["a"], "b", "a");
  }

  lemma LateSourceIsAccepted(credentials: Credentials)
    requires credentials(Capability, "", "")
    ensures Accepts(LateSource, credentials, ["a"])
  {
    hide Needed, FlowGraph, ValidCapability, Trimmed;
    LateSourceNeeds();
    FlowIs();
    CapabilityIsKnown();
    forall x | x in Needed(LateSource, ["a"])
      ensures StepFor(LateSource.nodes[x], credentials).Ok?
      ensures SourcesReadable(LateSource, x)
    {
    }
  }

  /**
   * The order of a finished plan can be wrong on a well-formed canvas: compiling accepts the canvas, puts the step of "a"
   * before that of "b" which feeds it, and a run of the plan reports success in a world where "a" was skipped.
   */
  lemma FinishedPlanCanBeOutOfOrder(credentials: Credentials, plan: seq<PlanStep>, max: int)
    requires credentials(Capability, "", "")
    ensures WF(TableOf(Declared), LateSource) && Accepts(LateSource, credentials, ["a"])
    ensures Compiled(LateSource, credentials, ["a"], plan) ==>
      !DependencyOrder(LateSource, plan) && DistinctPlan(plan) && !SuccessIsHonest(max, Initial(LateSource, plan))
  {
    hide WF, Accepts, Made, DependencyOrder, StepFor, SortedElements, FlowGraph, Needed, SuccessIsHonest, Initial, DistinctPlan,
      Collectable;
    var d := LateSource;
    LateSourceIsWellFormed();
    LateSourceIsAccepted(credentials);
    WellFormedIsCollectable(TableOf(Declared), d);
    LateSourceNeeds();
    FlowIs();
    assert !Leq("b", "a") by {
      assert "b"[0] == 'b' && "a"[0] == 'a';
    }
    if Compiled(d, credentials, ["a"], plan) {
      MadeIsDistinct(d, credentials, plan);
      FinishedPlanIsOrderedExactly(d, credentials, ["a"], plan);
      CompiledSuccessIsHonestExactly(d, credentials, ["a"], plan, max);
    }
  }

  /** Compiling it does return a plan. */
  method CompileLateSource(credentials: Credentials) returns (plan: seq<PlanStep>)
    requires credentials(Capability, "", "")
    ensures NodeSequence(plan) == ["a", "b"] && !DependencyOrder(LateSource, plan)
  {
    hide WF, Accepts, Made, DependencyOrder, StepFor, SortedElements, FlowGraph, Needed, NodeSequence;
    FinishedPlanCanBeOutOfOrder(credentials, [], 1);
    var r, inputs := Compile(TableOf(Declared), LateSource, credentials, ["a"]);
    plan := r.value;
    FinishedPlanCanBeOutOfOrder(credentials, plan, 1);
    LateSourceNeeds();
    SortedPair();
  }

  lemma SortedPair()
    ensures SortedElements({"a", "b"}) == ["a", "b"]
  {
    hide SortedElements;
    assert Leq("a", "b") by {
      assert "a"[0] == 'a' && "b"[0] == 'b';
    }
    var s := SortedElements({"a", "b"});
    assert forall x :: x in s <==> x in ["a", "b"];
    SortedIsUnique(s, ["a", "b"]);
  }
}
