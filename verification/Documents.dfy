/** Outcomes and the stable error codes of the canvas domain. */
module Outcomes {
  datatype Code =
    | NotFound
    | Conflict
    | Forbidden
    | InvalidId
    | InvalidNodeType
    | InvalidSpec
    | InvalidGeometry
    | PayloadTooLarge
    | InvalidRequest
    | UnknownField

  datatype Outcome<+T> = Ok(value: T) | Err(code: Code)

  datatype Check = Pass | Fail(code: Code)

  datatype Option<+T> = None | Some(value: T)
}

/**
 * The canvas document: nodes, ports, edges, viewport and settings.
 * A `string` stands for a sequence of bytes; a time is an integer, 0 being the zero time.
 */
module Documents {
  import opened Outcomes
  import opened Ordering

  const MaxOpBatch := 1000
  const MaxNodesPerCanvas := 200_000
  const MaxEdgesPerCanvas := 400_000
  const MaxTitleLen := 200
  const MaxPromptBytes := 32 * 1024
  const MinVariantsPerNode := 1
  const MaxVariantsPerNode := 15
  const MaxGroupDepth := 8
  const MaxIdLen := 64
  const MaxMetaKeys := 64
  const MaxMetaKeyLen := 128
  const CoordMin := -10000000.0
  const CoordMax := 10000000.0
  const SizeMin := 16.0
  const SizeMax := 20000.0
  const ZoomMin := 0.05
  const ZoomMax := 5.0

  /** The values a decoded JSON field can hold. */
  datatype Value =
    | Null
    | Bool(b: bool)
    | Num(n: real)
    | Str(s: string)
    | Arr(items: seq<Value>)
    | Obj(props: map<string, Value>)

  datatype Rect = Rect(x: real, y: real, w: real, h: real)
  datatype Viewport = Viewport(x: real, y: real, k: real)
  datatype Settings = Settings(background: string, imageInfo: bool, gridSnap: bool, readOnly: bool, freeResize: bool)

  datatype Port = Port(id: string, name: string, kind: string, multiple: bool, required: bool, order: int)
  datatype Ports = Ports(inputs: seq<Port>, outputs: seq<Port>)

  datatype Variant = Variant(assetId: string, text: string, kind: string, status: string, error: string)
  datatype NodeResult = NodeResult(variants: seq<Variant>, primary: int, runId: string, stepId: string)
  datatype NodeError = NodeError(code: string, message: string)

  datatype Node = Node(
    id: string, ty: string, title: string, rect: Rect, z: int, parentId: string, ports: Ports,
    spec: map<string, Value>, state: string, result: Option<NodeResult>, error: Option<NodeError>,
    locked: bool, meta: map<string, Value>)

  datatype Endpoint = Endpoint(nodeId: string, portId: string)
  datatype Edge = Edge(id: string, from: Endpoint, to: Endpoint, kind: string, createdBy: string, createdAt: int)

  /** What a document holds besides its identity, version and time stamp. */
  datatype Doc = Doc(viewport: Viewport, settings: Settings, nodes: map<string, Node>, edges: map<string, Edge>)

  const DefaultSettings := Settings("dots", true, false, false, false)

  const EmptyDoc := Doc(Viewport(0.0, 0.0, 1.0), DefaultSettings, map[], map[])

  predicate ValidIdChar(c: char) {
    'A' <= c <= 'Z' || 'a' <= c <= 'z' || '0' <= c <= '9' || c == '_' || c == '.' || c == ':' || c == '-'
  }

  predicate ValidId(id: string) {
    0 < |id| <= MaxIdLen && forall i :: 0 <= i < |id| ==> ValidIdChar(id[i])
  }

  predicate KebabChar(c: char) {
    'a' <= c <= 'z' || '0' <= c <= '9' || c == '-'
  }

  /** A lower-case kebab name; node types of this form are the built-in ones. */
  predicate ValidNodeTypeId(t: string) {
    |t| > 0 && 'a' <= t[0] <= 'z' && forall i :: 0 <= i < |t| ==> KebabChar(t[i])
  }

  /** `<plugin>:<name>`, the form of a plugin node type. */
  predicate IsPluginType(t: string) {
    exists k :: 0 <= k < |t| && t[k] == ':' && ValidNodeTypeId(t[..k]) && k + 1 < |t|
                && forall i :: k < i < |t| ==> KebabChar(t[i])
  }

  predicate ValidResourceKind(k: string) {
    k in {"text", "image", "video", "audio", "file", "json"}
  }

  predicate ValidNodeState(s: string) {
    s in {"idle", "pending", "running", "succeeded", "failed"}
  }

  function FindPort(ports: seq<Port>, id: string): Option<Port> {
    if ports == [] then None
    else if ports[0].id == id then Some(ports[0])
    else FindPort(ports[1..], id)
  }

  function CheckCoord(v: real): Check {
    if v < CoordMin || v > CoordMax then Fail(InvalidGeometry) else Pass
  }

  predicate RectOk(r: Rect) {
    CoordMin <= r.x <= CoordMax && CoordMin <= r.y <= CoordMax && SizeMin <= r.w <= SizeMax && SizeMin <= r.h <= SizeMax
  }

  function ValidateRect(r: Rect): Check {
    if RectOk(r) then Pass else Fail(InvalidGeometry)
  }

  predicate ViewportOk(v: Viewport) {
    CoordMin <= v.x <= CoordMax && CoordMin <= v.y <= CoordMax && ZoomMin <= v.k <= ZoomMax
  }

  function ChildIds(nodes: map<string, Node>, group: string): set<string> {
    set k | k in nodes && nodes[k].parentId == group
  }

  /** The direct children of a group, in ID order. */
  function ChildrenOf(nodes: map<string, Node>, group: string): seq<string> {
    SortedElements(ChildIds(nodes, group))
  }

  function InEdgeIds(edges: map<string, Edge>, node: string): set<string> {
    set k | k in edges && edges[k].to.nodeId == node
  }

  /** The edges into a node, in edge ID order. */
  function UpstreamOf(edges: map<string, Edge>, node: string): seq<Edge> {
    var ids := SortedElements(InEdgeIds(edges, node));
    seq(|ids|, i requires 0 <= i < |ids| => assert ids[i] in ids; edges[ids[i]])
  }

  lemma UpstreamIsIncoming(edges: map<string, Edge>, node: string, i: nat) returns (k: string)
    requires i < |UpstreamOf(edges, node)|
    ensures k in edges && edges[k] == UpstreamOf(edges, node)[i] && edges[k].to.nodeId == node
  {
    var ids := SortedElements(InEdgeIds(edges, node));
    k := ids[i];
    assert k in ids;
  }

  lemma IncomingIsUpstream(edges: map<string, Edge>, node: string, k: string) returns (i: nat)
    requires k in edges && edges[k].to.nodeId == node
    ensures i < |UpstreamOf(edges, node)| && edges[k] == UpstreamOf(edges, node)[i]
  {
    var ids := SortedElements(InEdgeIds(edges, node));
    assert k in ids;
    i :| 0 <= i < |ids| && ids[i] == k;
  }
}

/**
 * The typed configuration contract of each node type. The table of schemas is a parameter:
 * it gives a type its ports, its field names and its verdict on a configuration.
 */
module Schemas {
  import opened Outcomes
  import opened Documents

  /** A refusal that speaks of a missing required field is told apart, by its wording, as one a partial change may ignore. */
  datatype Verdict = Accepted | MissingRequired | Rejected(code: Code)

  datatype Schema = Schema(ports: Ports, fields: set<string>, verdict: map<string, Value> -> Verdict)

  type Table = map<string, Schema>

  /** Only a lower-case kebab type can have a schema. */
  function SchemaFor(table: Table, t: string): Option<Schema> {
    if ValidNodeTypeId(t) && t in table then Some(table[t]) else None
  }

  function ValidateSpec(table: Table, t: string, spec: map<string, Value>): Verdict {
    match SchemaFor(table, t)
    case None => Rejected(InvalidSpec)
    case Some(s) => s.verdict(spec)
  }

  /** The fields a `set_spec` may name: the schema's, and `text` on a prompt in any case. */
  predicate SpecFieldAllowed(table: Table, t: string, k: string) {
    match SchemaFor(table, t)
    case None => false
    case Some(s) => (t == "prompt" && k == "text") || k in s.fields
  }

  /** A table whose verdicts turn away every field outside the schema. */
  ghost predicate Strict(table: Table) {
    forall t, spec: map<string, Value> :: t in table && !table[t].verdict(spec).Rejected? ==> spec.Keys <= table[t].fields
  }

  /** No type that passes the type check is a plugin type, so an accepted node always has a schema. */
  lemma PluginTypesAreInvalid(t: string)
    requires ValidNodeTypeId(t)
    ensures !IsPluginType(t)
  {
  }
}

/** Declared schemas and the verdict they give. */
module SchemaDeclarations {
  import opened Outcomes
  import opened Documents
  import opened Schemas

  datatype FieldKind = FString | FNumber | FInteger | FBool | FStrings | FObject | FAny | FUnknown

  datatype Declaration = Declaration(ports: Ports, fields: map<string, FieldKind>, required: seq<string>)

  predicate IsInteger(n: real) {
    n == n.Floor as real
  }

  predicate FieldAccepts(kind: FieldKind, v: Value) {
    match kind
    case FString => v.Str?
    case FBool => v.Bool?
    case FNumber => v.Num?
    case FInteger => v.Num? && IsInteger(v.n)
    case FStrings => v.Arr? && forall i :: 0 <= i < |v.items| ==> v.items[i].Str?
    case FObject => v.Obj?
    case FAny => true
    case FUnknown => false
  }

  predicate IsSpace(c: char) {
    c in {' ', '\t', '\n', '\r', 11 as char, 12 as char}
  }

  function TrimLeft(s: string): string {
    if s != [] && IsSpace(s[0]) then TrimLeft(s[1..]) else s
  }

  function TrimRight(s: string): string {
    if s != [] && IsSpace(s[|s| - 1]) then TrimRight(s[..|s| - 1]) else s
  }

  function Trimmed(s: string): string {
    TrimRight(TrimLeft(s))
  }

  predicate ValidCapability(c: string) {
    Trimmed(c) in {
      "image.generate", "image.edit", "image.upscale", "video.generate",
      "text.generate", "text.tools", "audio.generate", "model.list"}
  }

  predicate Mentions(s: string, phrase: string) {
    exists i :: 0 <= i <= |s| && phrase <= s[i..]
  }

  const MissingPhrase := "missing required field"

  /** The rules tied to one node type, checked after every field has its declared kind. */
  function TypeRules(t: string, spec: map<string, Value>): Verdict {
    if t == "prompt" && "text" in spec && spec["text"].Str? && |spec["text"].s| > MaxPromptBytes then
      Rejected(PayloadTooLarge)
    else if t in {"image", "video", "audio"} && "assetId" in spec && spec["assetId"].Str?
            && spec["assetId"].s != "" && !ValidId(spec["assetId"].s) then
      Rejected(InvalidSpec)
    else if t == "generation" && "outputCount" in spec
            && !(spec["outputCount"].Num? && IsInteger(spec["outputCount"].n)
                 && MinVariantsPerNode as real <= spec["outputCount"].n <= MaxVariantsPerNode as real) then
      Rejected(InvalidSpec)
    else if t == "generation" && "capability" in spec
            && !(spec["capability"].Str? && ValidCapability(spec["capability"].s)) then
      if spec["capability"].Str? && Mentions(spec["capability"].s, MissingPhrase) then MissingRequired
      else Rejected(InvalidSpec)
    else
      Accepted
  }

  /** Unknown fields first, then missing required ones, and only then the kind of each value. */
  function Judge(t: string, s: Declaration, spec: map<string, Value>): Verdict {
    if exists k :: k in spec && k !in s.fields then Rejected(InvalidSpec)
    else if exists i :: 0 <= i < |s.required| && s.required[i] !in spec then MissingRequired
    else if exists k :: k in spec && (spec[k].Null? || !FieldAccepts(s.fields[k], spec[k])) then Rejected(InvalidSpec)
    else TypeRules(t, spec)
  }

  function TableOf(declared: map<string, Declaration>): Table {
    map t | t in declared :: Schema(declared[t].ports, declared[t].fields.Keys, spec => Judge(t, declared[t], spec))
  }

  /** A configuration that is not rejected names only declared fields, even while a required one is missing. */
  lemma DeclaredTablesAreStrict(declared: map<string, Declaration>)
    ensures Strict(TableOf(declared))
  {
    forall t, spec: map<string, Value> | t in TableOf(declared) && !TableOf(declared)[t].verdict(spec).Rejected?
      ensures spec.Keys <= TableOf(declared)[t].fields
    {
      assert TableOf(declared)[t].verdict(spec) == Judge(t, declared[t], spec);
    }
  }

  /** A change of the capability goes through when it is known, and also when its text holds the words of the other refusal. */
  lemma CapabilityVerdictExactly(s: Declaration, c: string)
    requires "capability" in s.fields && s.fields["capability"] == FString && s.required == ["capability"]
    ensures !Judge("generation", s, map["capability" := Str(c)]).Rejected? <==> ValidCapability(c) || Mentions(c, MissingPhrase)
  {
    hide ValidCapability, Mentions;
    var spec: map<string, Value> := map["capability" := Str(c)];
    assert spec.Keys == {"capability"} && spec["capability"] == Str(c);
  }

  // ---------------------------------------------------------------- what the verdict means

  predicate AllSpace(s: string) {
    forall i :: 0 <= i < |s| ==> s[i] == ' ' || s[i] == '\t' || s[i] == '\n' || s[i] == '\r' || s[i] == 11 as char || s[i] == 12 as char
  }

  lemma {:induction false} TrimLeftIs(s: string) returns (l: string)
    ensures s == l + TrimLeft(s) && AllSpace(l) && (TrimLeft(s) != [] ==> !IsSpace(TrimLeft(s)[0]))
  {
    if s != [] && IsSpace(s[0]) {
      l := TrimLeftIs(s[1..]);
      l := [s[0]] + l;
      assert s == [s[0]] + s[1..];
    } else {
      l := [];
    }
  }

  lemma {:induction false} TrimRightIs(s: string) returns (r: string)
    ensures s == TrimRight(s) + r && AllSpace(r) && (TrimRight(s) != [] ==> !IsSpace(TrimRight(s)[|TrimRight(s)| - 1]))
    decreases |s|
  {
    if s != [] && IsSpace(s[|s| - 1]) {
      r := TrimRightIs(s[..|s| - 1]);
      r := r + [s[|s| - 1]];
      assert s == s[..|s| - 1] + [s[|s| - 1]];
    } else {
      r := [];
    }
  }

  lemma {:induction false} TrimLeftDrops(l: string, s: string)
    requires AllSpace(l) && (s == [] || !IsSpace(s[0]))
    ensures TrimLeft(l + s) == s
  {
    if l == [] {
      assert l + s == s;
    } else {
      assert IsSpace(l[0]) && (l + s)[1..] == l[1..] + s;
      TrimLeftDrops(l[1..], s);
    }
  }

  lemma {:induction false} TrimRightDrops(s: string, r: string)
    requires AllSpace(r) && (s == [] || !IsSpace(s[|s| - 1]))
    ensures TrimRight(s + r) == s
    decreases |r|
  {
    if r == [] {
      assert s + r == s;
    } else {
      assert IsSpace(r[|r| - 1]) && (s + r)[..|s + r| - 1] == s + r[..|r| - 1];
      TrimRightDrops(s, r[..|r| - 1]);
    }
  }

  const Known: set<string> := {
    "image.generate", "image.edit", "image.upscale", "video.generate",
    "text.generate", "text.tools", "audio.generate", "model.list" }

  lemma KnownAreTight(k: string)
    requires k in Known
    ensures k != [] && !IsSpace(k[0]) && !IsSpace(k[|k| - 1])
  {
  }

  /** The text of a capability is the capability with any white space around it. */
  ghost predicate Spells(text: string, capability: string) {
    exists l, r :: text == l + capability + r && AllSpace(l) && AllSpace(r)
  }

  lemma TrimmedSpells(c: string)
    ensures Spells(c, Trimmed(c))
  {
    hide TrimLeft, TrimRight, IsSpace, AllSpace;
    var l := TrimLeftIs(c);
    var r := TrimRightIs(TrimLeft(c));
    assert c == l + Trimmed(c) + r;
  }

  lemma SpelledIsTrimmed(c: string, k: string)
    requires Spells(c, k) && k in Known
    ensures Trimmed(c) == k
  {
    hide TrimLeft, TrimRight, IsSpace, AllSpace;
    var l, r :| c == l + k + r && AllSpace(l) && AllSpace(r);
    KnownAreTight(k);
    assert l + k + r == l + (k + r) && (k + r)[0] == k[0];
    TrimLeftDrops(l, k + r);
    TrimRightDrops(k, r);
  }

  /** A capability is one of the eight known ones with any white space around it. */
  lemma CapabilityExactly(c: string)
    ensures ValidCapability(c) <==> exists k :: k in Known && Spells(c, k)
  {
    hide Trimmed, Spells;
    TrimmedSpells(c);
    if k :| k in Known && Spells(c, k) {
      SpelledIsTrimmed(c, k);
    }
  }

  ghost predicate IsWhole(n: real) {
    exists i: int :: n == Exactly(i)
  }

  function Exactly(i: int): real {
    i as real
  }

  /** What kind of value a field takes. */
  ghost predicate Takes(kind: FieldKind, v: Value) {
    match v
    case Null => false
    case Bool(_) => kind == FBool || kind == FAny
    case Num(n) => kind == FNumber || kind == FAny || (kind == FInteger && IsWhole(n))
    case Str(_) => kind == FString || kind == FAny
    case Arr(items) => kind == FAny || (kind == FStrings && forall i :: 0 <= i < |items| ==> items[i].Str?)
    case Obj(_) => kind == FObject || kind == FAny
  }

  lemma WholeNumber(n: real)
    ensures IsInteger(n) <==> IsWhole(n)
  {
    if IsInteger(n) {
      assert n == Exactly(n.Floor);
    }
  }

  lemma TakesExactly(kind: FieldKind, v: Value)
    ensures Takes(kind, v) <==> !v.Null? && FieldAccepts(kind, v)
  {
    if v.Num? {
      WholeNumber(v.n);
    }
  }

  /** The limits on single fields: a prompt's text, an asset's ID, the number of outputs and the capability of a generation. */
  predicate FieldRules(t: string, spec: map<string, Value>) {
    && (t == "prompt" && "text" in spec && spec["text"].Str? ==> |spec["text"].s| <= 32768)
    && (t in {"image", "video", "audio"} && "assetId" in spec && spec["assetId"].Str? ==> spec["assetId"].s == "" || ValidId(spec["assetId"].s))
    && (t == "generation" && "outputCount" in spec ==>
          spec["outputCount"].Num? && IsInteger(spec["outputCount"].n) && 1.0 <= spec["outputCount"].n <= 15.0)
    && (t == "generation" && "capability" in spec ==> spec["capability"].Str? && ValidCapability(spec["capability"].s))
  }

  /** A configuration is accepted exactly when it names declared fields only, has the required ones, and every value fits. */
  lemma AcceptedExactly(t: string, s: Declaration, spec: map<string, Value>)
    ensures Judge(t, s, spec) == Accepted
       <==> && (forall k :: k in spec ==> k in s.fields && Takes(s.fields[k], spec[k]))
            && (forall k :: k in s.required ==> k in spec)
            && FieldRules(t, spec)
  {
    hide ValidCapability, ValidId, Mentions, IsInteger;
    forall k | k in spec && k in s.fields
      ensures Takes(s.fields[k], spec[k]) <==> !spec[k].Null? && FieldAccepts(s.fields[k], spec[k])
    {
      TakesExactly(s.fields[k], spec[k]);
    }
    hide Takes, FieldAccepts;
  }

  /** A prompt whose text alone is wrong, for being longer than 32768 bytes, is too large; whatever else is rejected is invalid. */
  lemma RejectedAs(t: string, s: Declaration, spec: map<string, Value>)
    ensures var v := Judge(t, s, spec);
      v.Rejected? ==>
        v.code == if && t == "prompt" && "text" in spec && spec["text"].Str? && |spec["text"].s| > 32768
                     && (forall k :: k in spec ==> k in s.fields && Takes(s.fields[k], spec[k]))
                  then PayloadTooLarge else InvalidSpec
  {
    hide ValidCapability, ValidId, Mentions, IsInteger;
    forall k | k in spec && k in s.fields
      ensures Takes(s.fields[k], spec[k]) <==> !spec[k].Null? && FieldAccepts(s.fields[k], spec[k])
    {
      TakesExactly(s.fields[k], spec[k]);
    }
    hide Takes, FieldAccepts;
  }

  /** Otherwise it is rejected, unless what is missing is a required field. */
  lemma MissingExactly(t: string, s: Declaration, spec: map<string, Value>)
    requires forall k :: k in spec ==> k in s.fields
    requires exists k :: k in s.required && k !in spec
    ensures Judge(t, s, spec) == MissingRequired
  {
    var k :| k in s.required && k !in spec;
    var i :| 0 <= i < |s.required| && s.required[i] == k;
  }
}
