/** Normalising an untrusted dependency graph to a bounded one
    (extensions/storybook/src/dependency-graph.tsx). */
module DependencyGraph {
  import opened JsText

  const MAX_SAFE_INTEGER: int := 9_007_199_254_740_991

  /** A safe integer; JavaScript prints all its digits. */
  newtype Whole = n: int | -MAX_SAFE_INTEGER <= n <= MAX_SAFE_INTEGER

  /** A JavaScript data value. Any other number is known by its rendering only. */
  datatype Value =
    | Undefined
    | Null
    | Boolean(b: bool)
    | Integer(n: Whole)
    | OtherNumber(rendering: Text)
    | Str(text: Text)
    | List(items: seq<Value>)
    | Object(fields: map<string, Value>)

  datatype GraphNode = GraphNode(id: Text, caption: Text, version: Text, state: Text, detail: Text)

  datatype GraphEdge = GraphEdge(source: Text, target: Text, relation: Text, requirement: Text)

  datatype GraphTotals = GraphTotals(nodes: Whole, edges: Whole, cycles: Whole)

  datatype Graph = Graph(nodes: seq<GraphNode>, edges: seq<GraphEdge>, cycles: seq<seq<Text>>, totals: GraphTotals)

  const NODE_LIMIT: nat := 32
  const EDGE_LIMIT: nat := 128
  const CYCLE_LIMIT: nat := 8
  const MEMBER_LIMIT: nat := 6

  // ----------------------------------------------------------- conversions

  lemma DecimalIsAscii(n: nat)
    ensures forall i :: 0 <= i < |Decimal(n)| ==> Decimal(n)[i] < '\U{0080}'
  {
  }

  /** `String(value)`. */
  function StringOf(value: Value): Text
    decreases value, 1
  {
    match value
    case Undefined => Lit("undefined")
    case Null => Lit("null")
    case Boolean(b) => if b then Lit("true") else Lit("false")
    case Integer(n) =>
      var size: nat := if n < 0 then -(n as int) else n as int;
      DecimalIsAscii(size);
      if n < 0 then Lit("-") + Lit(Decimal(size)) else Lit(Decimal(size))
    case OtherNumber(rendering) => rendering
    case Str(text) => text
    case List(items) => JoinItems(items)
    case Object(_) => Lit("[object Object]")
  }

  /** `items.join(',')`. */
  function JoinItems(items: seq<Value>): Text
    decreases items, 0
  {
    if items == [] then []
    else
      (if items[0].Undefined? || items[0].Null? then [] else StringOf(items[0])) +
      (if |items| == 1 then [] else Lit(",") + JoinItems(items[1..]))
  }

  function Field(fields: map<string, Value>, name: string): Value {
    if name in fields then fields[name] else Undefined
  }

  /** The fields of a record; anything else has none. */
  function FieldsOf(value: Value): map<string, Value> {
    if value.Object? then value.fields else map[]
  }

  function ItemsOf(value: Value): seq<Value> {
    if value.List? then value.items else []
  }

  predicate IsControl(u: Unit) {
    u <= 0x1f || 0x7f <= u <= 0x9f
  }

  function BlankControls(t: Text): Text {
    seq(|t|, i requires 0 <= i < |t| => if IsControl(t[i]) then 0x20 else t[i])
  }

  function Clean(value: Value, limit: nat): (t: Text) {
    var blanked := BlankControls(StringOf(value));
    if |blanked| <= limit then blanked else blanked[..limit]
  }

  function Total(value: Value, retained: Whole): Whole {
    if value.Integer? && value.n >= retained then value.n else retained
  }

  // ------------------------------------------------------------- retention

  predicate HasId(nodes: seq<GraphNode>, id: Text) {
    exists i :: 0 <= i < |nodes| && nodes[i].id == id
  }

  function NodeOf(fields: map<string, Value>): GraphNode {
    GraphNode(Clean(Field(fields, "id"), 40), Clean(Field(fields, "label"), 120), Clean(Field(fields, "version"), 64),
              Clean(Field(fields, "state"), 40), Clean(Field(fields, "detail"), 160))
  }

  function EdgeOf(fields: map<string, Value>): GraphEdge {
    GraphEdge(Clean(Field(fields, "source"), 40), Clean(Field(fields, "target"), 40),
              Clean(Field(fields, "relation"), 64), Clean(Field(fields, "requirement"), 120))
  }

  predicate NewNode(nodes: seq<GraphNode>, value: Value) {
    value.Object? && Trim(NodeOf(value.fields).id) != [] && !HasId(nodes, NodeOf(value.fields).id)
  }

  predicate Joins(nodes: seq<GraphNode>, value: Value) {
    value.Object? && HasId(nodes, EdgeOf(value.fields).source) && HasId(nodes, EdgeOf(value.fields).target)
  }

  /** First occurrences of usable nodes, without a limit. */
  function UsableNodes(raw: seq<Value>): seq<GraphNode> {
    if raw == [] then []
    else var nodes, value := UsableNodes(raw[..|raw| - 1]), raw[|raw| - 1];
         if NewNode(nodes, value) then nodes + [NodeOf(value.fields)] else nodes
  }

  function UsableEdges(nodes: seq<GraphNode>, raw: seq<Value>): seq<GraphEdge> {
    if raw == [] then []
    else var edges, value := UsableEdges(nodes, raw[..|raw| - 1]), raw[|raw| - 1];
         if Joins(nodes, value) then edges + [EdgeOf(value.fields)] else edges
  }

  function Take<T>(s: seq<T>, limit: nat): (r: seq<T>)
    ensures |r| <= limit
  {
    if |s| <= limit then s else s[..limit]
  }

  predicate HasEdge(edges: seq<GraphEdge>, source: Text, target: Text) {
    exists k :: 0 <= k < |edges| && edges[k].source == source && edges[k].target == target
  }

  /** An edge leads from the member to the next, from the last to the first. */
  predicate Linked(edges: seq<GraphEdge>, cycle: seq<Text>, i: nat)
    requires i < |cycle|
  {
    HasEdge(edges, cycle[i], cycle[if i + 1 == |cycle| then 0 else i + 1])
  }

  /** A closed walk over retained edges: each member has an edge to the next, the last to the first. */
  predicate ClosedWalk(nodes: seq<GraphNode>, edges: seq<GraphEdge>, cycle: seq<Text>) {
    0 < |cycle| <= MEMBER_LIMIT &&
    (forall i :: 0 <= i < |cycle| ==> HasId(nodes, cycle[i])) &&
    (forall i :: 0 <= i < |cycle| ==> Linked(edges, cycle, i))
  }

  function Members(items: seq<Value>): seq<Text>
    requires forall i :: 0 <= i < |items| ==> items[i].Str?
  {
    seq(|items|, i requires 0 <= i < |items| => items[i].text)
  }

  predicate UsableCycle(nodes: seq<GraphNode>, edges: seq<GraphEdge>, value: Value) {
    value.List? && (forall i :: 0 <= i < |value.items| ==> value.items[i].Str?) &&
    ClosedWalk(nodes, edges, Members(value.items))
  }

  function UsableCycles(nodes: seq<GraphNode>, edges: seq<GraphEdge>, raw: seq<Value>): seq<seq<Text>> {
    if raw == [] then []
    else (if UsableCycle(nodes, edges, raw[0]) then [Members(raw[0].items)] else []) +
         UsableCycles(nodes, edges, raw[1..])
  }

  function Bounded(value: Value): Graph {
    var graph := FieldsOf(value);
    var nodes := Take(UsableNodes(ItemsOf(Field(graph, "nodes"))), NODE_LIMIT);
    var edges := Take(UsableEdges(nodes, ItemsOf(Field(graph, "edges"))), EDGE_LIMIT);
    var cycles := Take(UsableCycles(nodes, edges, ItemsOf(Field(graph, "cycles"))), CYCLE_LIMIT);
    var totals := FieldsOf(Field(graph, "totals"));
    Graph(nodes, edges, cycles,
          GraphTotals(Total(Field(totals, "nodes"), |nodes| as Whole), Total(Field(totals, "edges"), |edges| as Whole),
                      Total(Field(totals, "cycles"), |cycles| as Whole)))
  }

  /** The node loop, which stops as soon as the limit is reached. */
  method RetainNodes(raw: seq<Value>) returns (nodes: seq<GraphNode>, ids: set<Text>)
    ensures nodes == Take(UsableNodes(raw), NODE_LIMIT)
    ensures forall id :: id in ids <==> HasId(nodes, id)
  {
    nodes, ids := [], {};
    var i := 0;
    while i < |raw| && |nodes| != NODE_LIMIT
      invariant 0 <= i <= |raw|
      invariant nodes == UsableNodes(raw[..i]) && |nodes| <= NODE_LIMIT
      invariant forall id :: id in ids <==> HasId(nodes, id)
    {
      var node := raw[i];
      i := i + 1;
      assert raw[..i][..i - 1] == raw[..i - 1];
      if !node.Object? {
        continue;
      }
      var id := Clean(Field(node.fields, "id"), 40);
      if Trim(id) == [] || id in ids {
        continue;
      }
      ids := ids + {id};
      HasIdSnoc(nodes, NodeOf(node.fields));
      nodes := nodes + [NodeOf(node.fields)];
    }
    UsableNodesGrow(raw, i);
    assert i == |raw| ==> raw[..i] == raw;
  }

  /** The edge loop. */
  method RetainEdges(raw: seq<Value>, nodes: seq<GraphNode>, ids: set<Text>) returns (edges: seq<GraphEdge>)
    requires forall id :: id in ids <==> HasId(nodes, id)
    ensures edges == Take(UsableEdges(nodes, raw), EDGE_LIMIT)
  {
    edges := [];
    var i := 0;
    while i < |raw| && |edges| != EDGE_LIMIT
      invariant 0 <= i <= |raw|
      invariant edges == UsableEdges(nodes, raw[..i]) && |edges| <= EDGE_LIMIT
    {
      var edge := raw[i];
      i := i + 1;
      assert raw[..i][..i - 1] == raw[..i - 1];
      if !edge.Object? {
        continue;
      }
      var source := Clean(Field(edge.fields, "source"), 40);
      var target := Clean(Field(edge.fields, "target"), 40);
      if source !in ids || target !in ids {
        continue;
      }
      edges := edges + [EdgeOf(edge.fields)];
    }
    UsableEdgesGrow(nodes, raw, i);
    assert i == |raw| ==> raw[..i] == raw;
  }

  method BoundedGraph(value: Value) returns (g: Graph)
    ensures g == Bounded(value)
  {
    var graph := FieldsOf(value);
    var nodes, ids := RetainNodes(ItemsOf(Field(graph, "nodes")));
    var edges := RetainEdges(ItemsOf(Field(graph, "edges")), nodes, ids);
    var cycles := Take(UsableCycles(nodes, edges, ItemsOf(Field(graph, "cycles"))), CYCLE_LIMIT);
    var totals := FieldsOf(Field(graph, "totals"));
    g := Graph(nodes, edges, cycles,
               GraphTotals(Total(Field(totals, "nodes"), |nodes| as Whole), Total(Field(totals, "edges"), |edges| as Whole),
                           Total(Field(totals, "cycles"), |cycles| as Whole)));
  }

  lemma HasIdSnoc(nodes: seq<GraphNode>, node: GraphNode)
    ensures forall id :: HasId(nodes + [node], id) <==> HasId(nodes, id) || id == node.id
  {
    var more := nodes + [node];
    assert more[|nodes|] == node;
    forall id | HasId(nodes, id) ensures HasId(more, id) {
      var i :| 0 <= i < |nodes| && nodes[i].id == id;
      assert more[i].id == id;
    }
  }

  /** Reading on never changes what was retained before. */
  lemma {:induction false} UsableNodesGrow(raw: seq<Value>, i: nat)
    requires i <= |raw|
    ensures UsableNodes(raw[..i]) <= UsableNodes(raw)
    decreases |raw|
  {
    if i < |raw| {
      assert raw[..|raw| - 1][..i] == raw[..i];
      UsableNodesGrow(raw[..|raw| - 1], i);
    } else {
      assert raw[..i] == raw;
    }
  }

  lemma {:induction false} UsableEdgesGrow(nodes: seq<GraphNode>, raw: seq<Value>, i: nat)
    requires i <= |raw|
    ensures UsableEdges(nodes, raw[..i]) <= UsableEdges(nodes, raw)
    decreases |raw|
  {
    if i < |raw| {
      assert raw[..|raw| - 1][..i] == raw[..i];
      UsableEdgesGrow(nodes, raw[..|raw| - 1], i);
    } else {
      assert raw[..i] == raw;
    }
  }

  // ----------------------------------------------------------- normal form

  predicate CleanText(t: Text, limit: nat) {
    |t| <= limit && forall i :: 0 <= i < |t| ==> !IsControl(t[i])
  }

  predicate NormalNode(n: GraphNode) {
    CleanText(n.id, 40) && Trim(n.id) != [] && CleanText(n.caption, 120) && CleanText(n.version, 64) &&
    CleanText(n.state, 40) && CleanText(n.detail, 160)
  }

  predicate NormalEdge(nodes: seq<GraphNode>, e: GraphEdge) {
    HasId(nodes, e.source) && HasId(nodes, e.target) && CleanText(e.source, 40) && CleanText(e.target, 40) &&
    CleanText(e.relation, 64) && CleanText(e.requirement, 120)
  }

  predicate DistinctIds(nodes: seq<GraphNode>) {
    forall i, j :: 0 <= i < j < |nodes| ==> nodes[i].id != nodes[j].id
  }

  predicate NormalTotal(total: Whole, retained: nat) {
    retained <= total as int
  }

  predicate NormalForm(g: Graph) {
    |g.nodes| <= NODE_LIMIT && |g.edges| <= EDGE_LIMIT && |g.cycles| <= CYCLE_LIMIT &&
    DistinctIds(g.nodes) &&
    (forall i :: 0 <= i < |g.nodes| ==> NormalNode(g.nodes[i])) &&
    (forall i :: 0 <= i < |g.edges| ==> NormalEdge(g.nodes, g.edges[i])) &&
    (forall i :: 0 <= i < |g.cycles| ==> ClosedWalk(g.nodes, g.edges, g.cycles[i])) &&
    NormalTotal(g.totals.nodes, |g.nodes|) && NormalTotal(g.totals.edges, |g.edges|) &&
    NormalTotal(g.totals.cycles, |g.cycles|)
  }

  lemma CleanIsClean(value: Value, limit: nat)
    ensures CleanText(Clean(value, limit), limit)
  {
  }

  lemma NodeOfClean(fields: map<string, Value>)
    ensures var n := NodeOf(fields);
            CleanText(n.id, 40) && CleanText(n.caption, 120) && CleanText(n.version, 64) &&
            CleanText(n.state, 40) && CleanText(n.detail, 160)
  {
    CleanIsClean(Field(fields, "id"), 40);
    CleanIsClean(Field(fields, "label"), 120);
    CleanIsClean(Field(fields, "version"), 64);
    CleanIsClean(Field(fields, "state"), 40);
    CleanIsClean(Field(fields, "detail"), 160);
  }

  lemma EdgeOfClean(fields: map<string, Value>)
    ensures var e := EdgeOf(fields);
            CleanText(e.source, 40) && CleanText(e.target, 40) && CleanText(e.relation, 64) && CleanText(e.requirement, 120)
  {
    CleanIsClean(Field(fields, "source"), 40);
    CleanIsClean(Field(fields, "target"), 40);
    CleanIsClean(Field(fields, "relation"), 64);
    CleanIsClean(Field(fields, "requirement"), 120);
  }

  lemma {:induction false} UsableNodesNormal(raw: seq<Value>)
    ensures DistinctIds(UsableNodes(raw))
    ensures forall i :: 0 <= i < |UsableNodes(raw)| ==> NormalNode(UsableNodes(raw)[i])
  {
    if raw != [] {
      UsableNodesNormal(raw[..|raw| - 1]);
      if raw[|raw| - 1].Object? {
        NodeOfClean(raw[|raw| - 1].fields);
      }
    }
  }

  lemma {:induction false} UsableEdgesNormal(nodes: seq<GraphNode>, raw: seq<Value>)
    ensures forall i :: 0 <= i < |UsableEdges(nodes, raw)| ==> NormalEdge(nodes, UsableEdges(nodes, raw)[i])
  {
    if raw != [] {
      UsableEdgesNormal(nodes, raw[..|raw| - 1]);
      if raw[|raw| - 1].Object? {
        EdgeOfClean(raw[|raw| - 1].fields);
      }
    }
  }

  lemma {:induction false} UsableCyclesClosed(nodes: seq<GraphNode>, edges: seq<GraphEdge>, raw: seq<Value>)
    ensures forall i :: 0 <= i < |UsableCycles(nodes, edges, raw)| ==>
              ClosedWalk(nodes, edges, UsableCycles(nodes, edges, raw)[i])
  {
    if raw != [] {
      UsableCyclesClosed(nodes, edges, raw[1..]);
    }
  }

  /** Whatever the input, the result is in normal form. */
  lemma BoundedIsNormal(value: Value)
    ensures NormalForm(Bounded(value))
  {
    var graph := FieldsOf(value);
    var g := Bounded(value);
    UsableNodesNormal(ItemsOf(Field(graph, "nodes")));
    UsableEdgesNormal(g.nodes, ItemsOf(Field(graph, "edges")));
    UsableCyclesClosed(g.nodes, g.edges, ItemsOf(Field(graph, "cycles")));
  }

  // --------------------------------------------------- what is retained

  /** The text is the value's, with every control as a space, cut at the limit. */
  predicate ReadsAs(t: Text, value: Value, limit: nat) {
    var s := StringOf(value);
    |t| == (if |s| < limit then |s| else limit) &&
    forall i :: 0 <= i < |t| ==> t[i] == if s[i] <= 0x1f || 0x7f <= s[i] <= 0x9f then 0x20 else s[i]
  }

  lemma CleanReads(value: Value, limit: nat)
    ensures ReadsAs(Clean(value, limit), value, limit)
  {
  }

  predicate NodeReads(n: GraphNode, value: Value) {
    value.Object? && ReadsAs(n.id, Field(value.fields, "id"), 40) && ReadsAs(n.caption, Field(value.fields, "label"), 120) &&
    ReadsAs(n.version, Field(value.fields, "version"), 64) && ReadsAs(n.state, Field(value.fields, "state"), 40) &&
    ReadsAs(n.detail, Field(value.fields, "detail"), 160)
  }

  predicate EdgeReads(e: GraphEdge, value: Value) {
    value.Object? && ReadsAs(e.source, Field(value.fields, "source"), 40) &&
    ReadsAs(e.target, Field(value.fields, "target"), 40) && ReadsAs(e.relation, Field(value.fields, "relation"), 64) &&
    ReadsAs(e.requirement, Field(value.fields, "requirement"), 120)
  }

  lemma NodeOfReads(value: Value)
    requires value.Object?
    ensures NodeReads(NodeOf(value.fields), value)
  {
    CleanReads(Field(value.fields, "id"), 40);
    CleanReads(Field(value.fields, "label"), 120);
    CleanReads(Field(value.fields, "version"), 64);
    CleanReads(Field(value.fields, "state"), 40);
    CleanReads(Field(value.fields, "detail"), 160);
  }

  lemma EdgeOfReads(value: Value)
    requires value.Object?
    ensures EdgeReads(EdgeOf(value.fields), value)
  {
    CleanReads(Field(value.fields, "source"), 40);
    CleanReads(Field(value.fields, "target"), 40);
    CleanReads(Field(value.fields, "relation"), 64);
    CleanReads(Field(value.fields, "requirement"), 120);
  }

  ghost predicate Ascends(places: seq<nat>) {
    forall i, j :: 0 <= i < j < |places| ==> places[i] < places[j]
  }

  /** The first positions that are good, up to the limit. */
  ghost predicate FirstGood(places: seq<nat>, good: iset<nat>, limit: nat) {
    Ascends(places) && |places| <= limit &&
    (forall k :: 0 <= k < |places| ==> places[k] in good) &&
    (forall i :: i in good && i !in places ==> |places| == limit && forall k :: 0 <= k < |places| ==> places[k] < i)
  }

  lemma TakeFirst(all: seq<nat>, good: iset<nat>, limit: nat)
    requires Ascends(all) && forall i :: i in all <==> i in good
    ensures FirstGood(Take(all, limit), good, limit)
  {
    var places := Take(all, limit);
    forall i | i in good && i !in places
      ensures |places| == limit && forall k :: 0 <= k < |places| ==> places[k] < i
    {
      var x :| 0 <= x < |all| && all[x] == i;
      assert x >= limit;
    }
  }

  lemma ExtendPlaces(before: seq<nat>, n: nat, keep: bool)
    requires Ascends(before) && forall i :: i in before ==> i < n
    ensures var places := if keep then before + [n] else before;
            Ascends(places) && forall i: nat :: i in places <==> i in before || (keep && i == n)
  {
    forall k | 0 <= k < |before|
      ensures before[k] < n
    {
      assert before[k] in before;
    }
  }

  /** The cleaned id of an object; anything else has none. */
  function IdOf(value: Value): Text {
    if value.Object? then Clean(Field(value.fields, "id"), 40) else []
  }

  function IdsOf(raw: seq<Value>): seq<Text> {
    seq(|raw|, i requires 0 <= i < |raw| => IdOf(raw[i]))
  }

  /** An id that is not blank and is used here first. */
  predicate FirstUse(ids: seq<Text>, i: nat) {
    i < |ids| && Trim(ids[i]) != [] && ids[i] !in ids[..i]
  }

  lemma {:induction false} Earliest(ids: seq<Text>, j: nat) returns (i: nat)
    requires j < |ids| && Trim(ids[j]) != []
    ensures i <= j && ids[i] == ids[j] && FirstUse(ids, i)
    decreases j
  {
    if k :| 0 <= k < j && ids[k] == ids[j] {
      i := Earliest(ids, k);
    } else {
      i := j;
    }
  }

  ghost predicate IdsAt(ids: seq<Text>, places: seq<nat>, nodes: seq<GraphNode>) {
    |nodes| == |places| && forall k :: 0 <= k < |places| ==> places[k] < |ids| && nodes[k].id == ids[places[k]]
  }

  /** An id is taken exactly when it was read before. */
  lemma IdTaken(ids: seq<Text>, places: seq<nat>, nodes: seq<GraphNode>, id: Text)
    requires IdsAt(ids, places, nodes) && Trim(id) != []
    requires forall i: nat :: i in places <==> FirstUse(ids, i)
    ensures HasId(nodes, id) <==> id in ids
  {
    if id in ids {
      var j :| 0 <= j < |ids| && ids[j] == id;
      var i := Earliest(ids, j);
      assert i in places;
      var k :| 0 <= k < |places| && places[k] == i;
      assert nodes[k].id == id;
    }
  }

  lemma NewNodeMeans(nodes: seq<GraphNode>, value: Value)
    ensures NewNode(nodes, value) <==> Trim(IdOf(value)) != [] && !HasId(nodes, IdOf(value))
    ensures NewNode(nodes, value) ==> value.Object? && NodeOf(value.fields).id == IdOf(value)
  {
  }

  lemma FirstUseSnoc(front: seq<Text>, id: Text, i: nat)
    ensures FirstUse(front + [id], i) <==> FirstUse(front, i) || (i == |front| && Trim(id) != [] && id !in front)
  {
    if i < |front| {
      assert (front + [id])[..i] == front[..i];
    } else if i == |front| {
      assert (front + [id])[..i] == front;
    }
  }

  lemma IdsOfSnoc(front: seq<Value>, last: Value)
    ensures IdsOf(front + [last]) == IdsOf(front) + [IdOf(last)]
  {
  }

  /** `nodes` are read from the objects at `places`. */
  ghost predicate NodesAt(raw: seq<Value>, places: seq<nat>, nodes: seq<GraphNode>) {
    |nodes| == |places| && forall k :: 0 <= k < |places| ==> places[k] < |raw| && NodeReads(nodes[k], raw[places[k]])
  }

  lemma NodesAtSnoc(front: seq<Value>, last: Value, places: seq<nat>, nodes: seq<GraphNode>, node: GraphNode)
    requires NodesAt(front, places, nodes)
    ensures NodesAt(front + [last], places, nodes)
    ensures NodeReads(node, last) ==> NodesAt(front + [last], places + [|front|], nodes + [node])
  {
  }

  lemma IdsAtSnoc(ids: seq<Text>, id: Text, places: seq<nat>, nodes: seq<GraphNode>, node: GraphNode)
    requires IdsAt(ids, places, nodes)
    ensures IdsAt(ids + [id], places, nodes)
    ensures node.id == id ==> IdsAt(ids + [id], places + [|ids|], nodes + [node])
  {
  }

  /** A new node is kept exactly when its id is used here first. */
  lemma KeptFirst(ids: seq<Text>, id: Text, before: seq<nat>, nodes: seq<GraphNode>, keep: bool, i: nat)
    requires forall k: nat :: k in before <==> FirstUse(ids, k)
    requires IdsAt(ids, before, nodes) && keep == (Trim(id) != [] && !HasId(nodes, id))
    ensures FirstUse(ids + [id], i) <==> i in before || (keep && i == |ids|)
  {
    if Trim(id) != [] {
      IdTaken(ids, before, nodes, id);
    }
    FirstUseSnoc(ids, id, i);
  }

  lemma NextPlaces(ids: seq<Text>, id: Text, before: seq<nat>, nodes: seq<GraphNode>, keep: bool)
    requires Ascends(before) && forall i: nat :: i in before <==> FirstUse(ids, i)
    requires IdsAt(ids, before, nodes) && keep == (Trim(id) != [] && !HasId(nodes, id))
    ensures var places := if keep then before + [|ids|] else before;
            Ascends(places) && forall i: nat :: i in places <==> FirstUse(ids + [id], i)
  {
    ExtendPlaces(before, |ids|, keep);
    forall i: nat
      ensures FirstUse(ids + [id], i) <==> i in before || (keep && i == |ids|)
    {
      KeptFirst(ids, id, before, nodes, keep, i);
    }
  }

  /** One more raw value, given what was kept before. */
  lemma NextPlace(front: seq<Value>, last: Value, ids: seq<Text>, id: Text, before: seq<nat>, nodes: seq<GraphNode>)
    returns (places: seq<nat>, more: seq<GraphNode>)
    requires id == IdOf(last) && |ids| == |front|
    requires Ascends(before) && forall i: nat :: i in before <==> FirstUse(ids, i)
    requires NodesAt(front, before, nodes) && IdsAt(ids, before, nodes)
    ensures Ascends(places) && forall i: nat :: i in places <==> FirstUse(ids + [id], i)
    ensures NodesAt(front + [last], places, more) && IdsAt(ids + [id], places, more)
    ensures more == if NewNode(nodes, last) then nodes + [NodeOf(last.fields)] else nodes
  {
    NewNodeMeans(nodes, last);
    NextPlaces(ids, id, before, nodes, NewNode(nodes, last));
    if NewNode(nodes, last) {
      var node := NodeOf(last.fields);
      NodeOfReads(last);
      NodesAtSnoc(front, last, before, nodes, node);
      IdsAtSnoc(ids, id, before, nodes, node);
      places, more := before + [|front|], nodes + [node];
    } else {
      var node := GraphNode([], [], [], [], []);
      NodesAtSnoc(front, last, before, nodes, node);
      IdsAtSnoc(ids, id, before, nodes, node);
      places, more := before, nodes;
    }
  }

  lemma {:induction false} UsablePlaces(raw: seq<Value>) returns (places: seq<nat>)
    ensures Ascends(places) && forall i: nat :: i in places <==> FirstUse(IdsOf(raw), i)
    ensures NodesAt(raw, places, UsableNodes(raw)) && IdsAt(IdsOf(raw), places, UsableNodes(raw))
    decreases |raw|
  {
    if raw == [] {
      places := [];
    } else {
      var front, last := raw[..|raw| - 1], raw[|raw| - 1];
      var before := UsablePlaces(front);
      var nodes, more := UsableNodes(front), [];
      assert front + [last] == raw;
      IdsOfSnoc(front, last);
      UsableNodesSnoc(front, last);
      places, more := NextPlace(front, last, IdsOf(front), IdOf(last), before, nodes);
    }
  }

  /** The nodes kept: the first 32 usable ones, each read from its own object. */
  ghost predicate NodesRetained(raw: seq<Value>, nodes: seq<GraphNode>, places: seq<nat>) {
    FirstGood(places, (iset i: nat | FirstUse(IdsOf(raw), i)), 32) && NodesAt(raw, places, nodes)
  }

  lemma NodesTaken(raw: seq<Value>, places: seq<nat>, nodes: seq<GraphNode>, limit: nat)
    requires NodesAt(raw, places, nodes)
    ensures NodesAt(raw, Take(places, limit), Take(nodes, limit))
  {
  }

  lemma NodesAreRetained(raw: seq<Value>)
    ensures exists places :: NodesRetained(raw, Take(UsableNodes(raw), NODE_LIMIT), places)
  {
    var all := UsablePlaces(raw);
    TakeFirst(all, (iset i: nat | FirstUse(IdsOf(raw), i)), NODE_LIMIT);
    NodesTaken(raw, all, UsableNodes(raw), NODE_LIMIT);
    assert NodesRetained(raw, Take(UsableNodes(raw), NODE_LIMIT), Take(all, NODE_LIMIT));
  }

  /** An edge that can be kept: an object whose cleaned ends are ids of retained nodes. */
  predicate JoinsRetained(nodes: seq<GraphNode>, value: Value) {
    value.Object? && HasId(nodes, Clean(Field(value.fields, "source"), 40)) &&
    HasId(nodes, Clean(Field(value.fields, "target"), 40))
  }

  lemma JoinsMeans(nodes: seq<GraphNode>, value: Value)
    ensures Joins(nodes, value) <==> JoinsRetained(nodes, value)
    ensures Joins(nodes, value) ==> value.Object? && EdgeReads(EdgeOf(value.fields), value)
  {
    if value.Object? {
      EdgeOfReads(value);
    }
  }

  ghost predicate EdgesAt(raw: seq<Value>, places: seq<nat>, edges: seq<GraphEdge>) {
    |edges| == |places| && forall k :: 0 <= k < |places| ==> places[k] < |raw| && EdgeReads(edges[k], raw[places[k]])
  }

  lemma UsableEdgesSnoc(nodes: seq<GraphNode>, front: seq<Value>, last: Value)
    ensures UsableEdges(nodes, front + [last]) ==
            UsableEdges(nodes, front) + (if Joins(nodes, last) then [EdgeOf(last.fields)] else [])
  {
    assert (front + [last])[..|front|] == front;
  }

  lemma EdgesAtSnoc(front: seq<Value>, last: Value, places: seq<nat>, edges: seq<GraphEdge>, edge: GraphEdge)
    requires EdgesAt(front, places, edges)
    ensures EdgesAt(front + [last], places, edges)
    ensures EdgeReads(edge, last) ==> EdgesAt(front + [last], places + [|front|], edges + [edge])
  {
  }

  lemma {:induction false} EdgePlaces(nodes: seq<GraphNode>, raw: seq<Value>) returns (places: seq<nat>)
    ensures Ascends(places) && forall i: nat :: i in places <==> i < |raw| && Joins(nodes, raw[i])
    ensures EdgesAt(raw, places, UsableEdges(nodes, raw))
    decreases |raw|
  {
    if raw == [] {
      places := [];
    } else {
      var front, last := raw[..|raw| - 1], raw[|raw| - 1];
      var before := EdgePlaces(nodes, front);
      var edges, keep := UsableEdges(nodes, front), Joins(nodes, last);
      assert front + [last] == raw;
      UsableEdgesSnoc(nodes, front, last);
      ExtendPlaces(before, |front|, keep);
      if keep {
        JoinsMeans(nodes, last);
        EdgesAtSnoc(front, last, before, edges, EdgeOf(last.fields));
        places := before + [|front|];
      } else {
        EdgesAtSnoc(front, last, before, edges, GraphEdge([], [], [], []));
        places := before;
      }
    }
  }

  ghost predicate EdgesRetained(raw: seq<Value>, nodes: seq<GraphNode>, edges: seq<GraphEdge>, places: seq<nat>) {
    FirstGood(places, (iset i: nat | i < |raw| && JoinsRetained(nodes, raw[i])), 128) && EdgesAt(raw, places, edges)
  }

  lemma EdgesTaken(raw: seq<Value>, places: seq<nat>, edges: seq<GraphEdge>, limit: nat)
    requires EdgesAt(raw, places, edges)
    ensures EdgesAt(raw, Take(places, limit), Take(edges, limit))
  {
  }

  lemma EdgesAreRetained(nodes: seq<GraphNode>, raw: seq<Value>)
    ensures exists places :: EdgesRetained(raw, nodes, Take(UsableEdges(nodes, raw), EDGE_LIMIT), places)
  {
    var all := EdgePlaces(nodes, raw);
    forall i: nat | i < |raw|
      ensures Joins(nodes, raw[i]) <==> JoinsRetained(nodes, raw[i])
    {
      JoinsMeans(nodes, raw[i]);
    }
    TakeFirst(all, (iset i: nat | i < |raw| && JoinsRetained(nodes, raw[i])), EDGE_LIMIT);
    EdgesTaken(raw, all, UsableEdges(nodes, raw), EDGE_LIMIT);
    assert EdgesRetained(raw, nodes, Take(UsableEdges(nodes, raw), EDGE_LIMIT), Take(all, EDGE_LIMIT));
  }

  /** The members are the texts of the list. */
  predicate CycleReads(cycle: seq<Text>, value: Value) {
    value.List? && |cycle| == |value.items| && forall i :: 0 <= i < |cycle| ==> value.items[i] == Str(cycle[i])
  }

  ghost predicate CyclesAt(raw: seq<Value>, places: seq<nat>, cycles: seq<seq<Text>>) {
    |cycles| == |places| && forall k :: 0 <= k < |places| ==> places[k] < |raw| && CycleReads(cycles[k], raw[places[k]])
  }

  lemma MembersRead(nodes: seq<GraphNode>, edges: seq<GraphEdge>, value: Value)
    ensures UsableCycle(nodes, edges, value) ==> value.List? && CycleReads(Members(value.items), value)
  {
  }

  lemma {:induction false} UsableCyclesSnoc(nodes: seq<GraphNode>, edges: seq<GraphEdge>, front: seq<Value>, last: Value)
    ensures UsableCycles(nodes, edges, front + [last]) ==
            UsableCycles(nodes, edges, front) + (if UsableCycle(nodes, edges, last) then [Members(last.items)] else [])
    decreases |front|
  {
    if front == [] {
      assert front + [last] == [last] && [last][1..] == [];
    } else {
      assert (front + [last])[1..] == front[1..] + [last];
      UsableCyclesSnoc(nodes, edges, front[1..], last);
    }
  }

  lemma CyclesAtSnoc(front: seq<Value>, last: Value, places: seq<nat>, cycles: seq<seq<Text>>, cycle: seq<Text>)
    requires CyclesAt(front, places, cycles)
    ensures CyclesAt(front + [last], places, cycles)
    ensures CycleReads(cycle, last) ==> CyclesAt(front + [last], places + [|front|], cycles + [cycle])
  {
  }

  lemma {:induction false} CyclePlaces(nodes: seq<GraphNode>, edges: seq<GraphEdge>, raw: seq<Value>) returns (places: seq<nat>)
    ensures Ascends(places) && forall i: nat :: i in places <==> i < |raw| && UsableCycle(nodes, edges, raw[i])
    ensures CyclesAt(raw, places, UsableCycles(nodes, edges, raw))
    decreases |raw|
  {
    if raw == [] {
      places := [];
    } else {
      var front, last := raw[..|raw| - 1], raw[|raw| - 1];
      var before := CyclePlaces(nodes, edges, front);
      var cycles, keep := UsableCycles(nodes, edges, front), UsableCycle(nodes, edges, last);
      assert front + [last] == raw;
      UsableCyclesSnoc(nodes, edges, front, last);
      ExtendPlaces(before, |front|, keep);
      if keep {
        MembersRead(nodes, edges, last);
        CyclesAtSnoc(front, last, before, cycles, Members(last.items));
        places := before + [|front|];
      } else {
        CyclesAtSnoc(front, last, before, cycles, []);
        places := before;
      }
    }
  }

  ghost predicate CyclesRetained(raw: seq<Value>, nodes: seq<GraphNode>, edges: seq<GraphEdge>, cycles: seq<seq<Text>>,
                                 places: seq<nat>) {
    FirstGood(places, (iset i: nat | i < |raw| && UsableCycle(nodes, edges, raw[i])), 8) && CyclesAt(raw, places, cycles)
  }

  lemma CyclesTaken(raw: seq<Value>, places: seq<nat>, cycles: seq<seq<Text>>, limit: nat)
    requires CyclesAt(raw, places, cycles)
    ensures CyclesAt(raw, Take(places, limit), Take(cycles, limit))
  {
  }

  lemma CyclesAreRetained(nodes: seq<GraphNode>, edges: seq<GraphEdge>, raw: seq<Value>)
    ensures exists places :: CyclesRetained(raw, nodes, edges, Take(UsableCycles(nodes, edges, raw), CYCLE_LIMIT), places)
  {
    var all := CyclePlaces(nodes, edges, raw);
    TakeFirst(all, (iset i: nat | i < |raw| && UsableCycle(nodes, edges, raw[i])), CYCLE_LIMIT);
    CyclesTaken(raw, all, UsableCycles(nodes, edges, raw), CYCLE_LIMIT);
    assert CyclesRetained(raw, nodes, edges, Take(UsableCycles(nodes, edges, raw), CYCLE_LIMIT), Take(all, CYCLE_LIMIT));
  }

  lemma NextMember(n: nat, i: nat)
    requires i < n
    ensures (if i + 1 == n then 0 else i + 1) == (i + 1) % n
  {
    if i + 1 == n {
      assert (i + 1) % n == 0;
    }
  }

  /** Between the member and the next one, counted round, there is an edge. */
  predicate Rounds(edges: seq<GraphEdge>, cycle: seq<Text>, i: nat) {
    i < |cycle| && HasEdge(edges, cycle[i], cycle[(i + 1) % |cycle|])
  }

  lemma ClosedWalkMeans(nodes: seq<GraphNode>, edges: seq<GraphEdge>, cycle: seq<Text>)
    ensures ClosedWalk(nodes, edges, cycle) <==>
            1 <= |cycle| <= 6 && (forall i :: 0 <= i < |cycle| ==> HasId(nodes, cycle[i])) &&
            (forall i :: 0 <= i < |cycle| ==> Rounds(edges, cycle, i))
  {
    forall i | 0 <= i < |cycle|
      ensures Linked(edges, cycle, i) <==> Rounds(edges, cycle, i)
    {
      NextMember(|cycle|, i);
    }
  }

  lemma ReadsMembers(cycle: seq<Text>, value: Value)
    requires CycleReads(cycle, value)
    ensures (forall i :: 0 <= i < |value.items| ==> value.items[i].Str?) && Members(value.items) == cycle
  {
  }

  /** A cycle that can be kept: a list of texts that is a closed walk over retained edges. */
  lemma UsableCycleMeans(nodes: seq<GraphNode>, edges: seq<GraphEdge>, value: Value)
    ensures UsableCycle(nodes, edges, value) <==>
            exists cycle :: CycleReads(cycle, value) && ClosedWalk(nodes, edges, cycle)
  {
    if UsableCycle(nodes, edges, value) {
      MembersRead(nodes, edges, value);
    }
    if cycle :| CycleReads(cycle, value) && ClosedWalk(nodes, edges, cycle) {
      ReadsMembers(cycle, value);
    }
  }

  /** A total is the announced one where that is a safe integer of at least the retained count, and that
      count otherwise. */
  predicate TotalReads(total: Whole, announced: Value, retained: nat) {
    retained <= total as int &&
    (announced.Integer? && announced.n as int >= retained ==> total == announced.n) &&
    (total as int > retained ==> announced == Integer(total))
  }

  /** What the normalised graph holds, position by position of the input. */
  lemma BoundedRetains(value: Value)
    ensures var graph, g := FieldsOf(value), Bounded(value);
            (exists places :: NodesRetained(ItemsOf(Field(graph, "nodes")), g.nodes, places)) &&
            (exists places :: EdgesRetained(ItemsOf(Field(graph, "edges")), g.nodes, g.edges, places)) &&
            (exists places :: CyclesRetained(ItemsOf(Field(graph, "cycles")), g.nodes, g.edges, g.cycles, places)) &&
            TotalReads(g.totals.nodes, Field(FieldsOf(Field(graph, "totals")), "nodes"), |g.nodes|) &&
            TotalReads(g.totals.edges, Field(FieldsOf(Field(graph, "totals")), "edges"), |g.edges|) &&
            TotalReads(g.totals.cycles, Field(FieldsOf(Field(graph, "totals")), "cycles"), |g.cycles|)
  {
    var graph, g := FieldsOf(value), Bounded(value);
    NodesAreRetained(ItemsOf(Field(graph, "nodes")));
    EdgesAreRetained(g.nodes, ItemsOf(Field(graph, "edges")));
    CyclesAreRetained(g.nodes, g.edges, ItemsOf(Field(graph, "cycles")));
  }

  // --------------------------------------------------------- fixed points

  function NodeValue(n: GraphNode): Value {
    Object(map["id" := Str(n.id), "label" := Str(n.caption), "version" := Str(n.version), "state" := Str(n.state),
               "detail" := Str(n.detail)])
  }

  function EdgeValue(e: GraphEdge): Value {
    Object(map["source" := Str(e.source), "target" := Str(e.target), "relation" := Str(e.relation),
               "requirement" := Str(e.requirement)])
  }

  function CycleValue(cycle: seq<Text>): Value {
    List(seq(|cycle|, i requires 0 <= i < |cycle| => Str(cycle[i])))
  }

  function TotalsValue(t: GraphTotals): Value {
    Object(map["nodes" := Integer(t.nodes), "edges" := Integer(t.edges), "cycles" := Integer(t.cycles)])
  }

  function Each<T>(s: seq<T>, f: T -> Value): seq<Value> {
    seq(|s|, i requires 0 <= i < |s| => f(s[i]))
  }

  /** A bounded graph as the input of another normalisation. */
  function GraphValue(g: Graph): Value {
    Object(map["nodes" := List(Each(g.nodes, NodeValue)), "edges" := List(Each(g.edges, EdgeValue)),
               "cycles" := List(Each(g.cycles, CycleValue)), "totals" := TotalsValue(g.totals)])
  }

  lemma CleanKeeps(t: Text, limit: nat)
    requires CleanText(t, limit)
    ensures Clean(Str(t), limit) == t
  {
    assert BlankControls(t) == t;
  }

  lemma NodeValueReads(n: GraphNode)
    requires NormalNode(n)
    ensures NodeOf(NodeValue(n).fields) == n
  {
    CleanKeeps(n.id, 40);
    CleanKeeps(n.caption, 120);
    CleanKeeps(n.version, 64);
    CleanKeeps(n.state, 40);
    CleanKeeps(n.detail, 160);
  }

  lemma EdgeValueReads(nodes: seq<GraphNode>, e: GraphEdge)
    requires NormalEdge(nodes, e)
    ensures EdgeOf(EdgeValue(e).fields) == e
  {
    CleanKeeps(e.source, 40);
    CleanKeeps(e.target, 40);
    CleanKeeps(e.relation, 64);
    CleanKeeps(e.requirement, 120);
  }

  lemma NewNodeKept(front: seq<GraphNode>, last: GraphNode)
    requires NormalNode(last) && DistinctIds(front + [last])
    ensures NewNode(front, NodeValue(last)) && NodeOf(NodeValue(last).fields) == last
  {
    NodeValueReads(last);
    forall i | 0 <= i < |front| ensures front[i].id != last.id {
      assert (front + [last])[i] == front[i] && (front + [last])[|front|] == last;
    }
  }

  lemma UsableNodesSnoc(raw: seq<Value>, value: Value)
    ensures UsableNodes(raw + [value]) ==
            if NewNode(UsableNodes(raw), value) then UsableNodes(raw) + [NodeOf(value.fields)] else UsableNodes(raw)
  {
    assert (raw + [value])[..|raw|] == raw;
  }

  lemma EachSnoc<T>(s: seq<T>, x: T, f: T -> Value)
    ensures Each(s + [x], f) == Each(s, f) + [f(x)]
  {
  }

  lemma DistinctFront(nodes: seq<GraphNode>)
    requires DistinctIds(nodes) && nodes != []
    ensures DistinctIds(nodes[..|nodes| - 1])
  {
  }

  lemma {:induction false} NodesKept(nodes: seq<GraphNode>)
    requires DistinctIds(nodes) && forall i :: 0 <= i < |nodes| ==> NormalNode(nodes[i])
    ensures UsableNodes(Each(nodes, NodeValue)) == nodes
  {
    if nodes != [] {
      var front, last := nodes[..|nodes| - 1], nodes[|nodes| - 1];
      assert nodes == front + [last];
      DistinctFront(nodes);
      NodesKept(front);
      NewNodeKept(front, last);
      EachSnoc(front, last, NodeValue);
      UsableNodesSnoc(Each(front, NodeValue), NodeValue(last));
    }
  }

  lemma {:induction false} EdgesKept(nodes: seq<GraphNode>, edges: seq<GraphEdge>)
    requires forall i :: 0 <= i < |edges| ==> NormalEdge(nodes, edges[i])
    ensures UsableEdges(nodes, Each(edges, EdgeValue)) == edges
  {
    if edges != [] {
      var front, last := edges[..|edges| - 1], edges[|edges| - 1];
      var raw := Each(edges, EdgeValue);
      assert raw[..|raw| - 1] == Each(front, EdgeValue);
      EdgesKept(nodes, front);
      assert NormalEdge(nodes, last);
      EdgeValueReads(nodes, last);
      assert edges == front + [last];
    }
  }

  lemma CycleValueReads(cycle: seq<Text>)
    ensures var v := CycleValue(cycle);
            v.List? && (forall i :: 0 <= i < |v.items| ==> v.items[i].Str?) && Members(v.items) == cycle
  {
  }

  lemma {:induction false} CyclesKept(nodes: seq<GraphNode>, edges: seq<GraphEdge>, cycles: seq<seq<Text>>)
    requires forall i :: 0 <= i < |cycles| ==> ClosedWalk(nodes, edges, cycles[i])
    ensures UsableCycles(nodes, edges, Each(cycles, CycleValue)) == cycles
  {
    if cycles != [] {
      var raw := Each(cycles, CycleValue);
      assert raw[1..] == Each(cycles[1..], CycleValue);
      CyclesKept(nodes, edges, cycles[1..]);
      CycleValueReads(cycles[0]);
      assert raw[0] == CycleValue(cycles[0]);
      assert UsableCycle(nodes, edges, raw[0]);
      assert cycles == [cycles[0]] + cycles[1..];
    }
  }

  /** The normal forms are exactly the graphs normalisation leaves alone. */
  lemma FixedPoints(g: Graph)
    ensures Bounded(GraphValue(g)) == g <==> NormalForm(g)
  {
    BoundedIsNormal(GraphValue(g));
    if NormalForm(g) {
      NodesKept(g.nodes);
      EdgesKept(g.nodes, g.edges);
      CyclesKept(g.nodes, g.edges, g.cycles);
    }
  }

  lemma Idempotent(value: Value)
    ensures Bounded(GraphValue(Bounded(value))) == Bounded(value)
  {
    BoundedIsNormal(value);
    FixedPoints(Bounded(value));
  }
}
