/** The property graph that the graph-intelligence engine reads and writes: typed
    nodes kept in an arena (a node is identified by its index) and directed,
    labelled, property-bearing edges. Cypher's `MATCH (n:Kind {key: $k})` becomes a
    lookup by key, and `MERGE (a)-[r:L]->(b)` becomes insert-if-absent over the
    edge sequence. Timestamps are integer seconds supplied by the caller. */
module GraphStore {
  import opened Common

  /** A JSON object carried as a property; only its emptiness matters to the core. */
  type Metadata = map<string, string>

  /** Python's `if metadata:` -- `None` and `{}` are both "not supplied". */
  predicate Supplied(md: Option<Metadata>) {
    md.Some? && md.value != map[]
  }

  datatype ArgKind = Pro | Con

  datatype Node =
    | Memory(id: string, text: string, userId: Option<string>, created: Option<int>,
             topic: Option<string>, version: Option<string>, trustScore: Option<real>)
    | Component(name: string, kind: string, created: Option<int>, metadata: Option<Metadata>)
    | Decision(id: string, text: string, userId: Option<string>, created: Option<int>,
               metadata: Option<Metadata>, chosen: Option<bool>)
    | Argument(argKind: ArgKind, text: string, order: nat)
    | Validation(result: string)

  datatype EdgeProps = EdgeProps(created: Option<int>, metadata: Option<Metadata>,
                                 position: Option<int>, sessionId: Option<string>)

  const NoProps := EdgeProps(None, None, None, None)

  datatype Edge = Edge(src: nat, rel: string, dst: nat, props: EdgeProps)

  datatype Graph = Graph(nodes: seq<Node>, edges: seq<Edge>)

  /** The `{id, text}` summary of a memory that several queries return. */
  datatype MemoryRef = MemoryRef(id: string, text: string)

  // Relationship labels the engine itself uses.
  const RELATES_TO := "RELATES_TO"
  const SUPERSEDES := "SUPERSEDES"
  const RESPONDS_TO := "RESPONDS_TO"
  const EXTENDS := "EXTENDS"
  const CONFLICTS_WITH := "CONFLICTS_WITH"
  const DEPENDS_ON := "DEPENDS_ON"
  const AFFECTS := "AFFECTS"
  const BASED_ON := "BASED_ON"
  const CONSIDERED := "CONSIDERED"
  const CHOSEN_OVER := "CHOSEN_OVER"
  const VALIDATES := "VALIDATES"
  const CITES := "CITES"

  predicate EdgesInRange(g: Graph) {
    forall e :: 0 <= e < |g.edges| ==> g.edges[e].src < |g.nodes| && g.edges[e].dst < |g.nodes|
  }

  /** Memory ids and Component names are keys: MERGE never duplicates them. */
  predicate KeysUnique(g: Graph) {
    && (forall i, j :: 0 <= i < j < |g.nodes| && g.nodes[i].Memory? && g.nodes[j].Memory?
          ==> g.nodes[i].id != g.nodes[j].id)
    && (forall i, j :: 0 <= i < j < |g.nodes| && g.nodes[i].Component? && g.nodes[j].Component?
          ==> g.nodes[i].name != g.nodes[j].name)
  }

  predicate Valid(g: Graph) {
    EdgesInRange(g) && KeysUnique(g)
  }

  predicate IsMemoryWithId(id: string, n: Node) {
    n.Memory? && n.id == id
  }

  predicate IsComponentNamed(name: string, n: Node) {
    n.Component? && n.name == name
  }

  predicate IsDecisionWithId(id: string, n: Node) {
    n.Decision? && n.id == id
  }

  /** What a `MATCH` looks a node up by: its label and its key property. */
  datatype Key = MemoryKey(id: string) | ComponentKey(name: string) | DecisionKey(id: string)

  predicate HasKey(n: Node, key: Key) {
    match key
    case MemoryKey(id) => IsMemoryWithId(id, n)
    case ComponentKey(name) => IsComponentNamed(name, n)
    case DecisionKey(id) => IsDecisionWithId(id, n)
  }

  /** The first node at or after `from` that `key` matches. */
  function FindFrom(nodes: seq<Node>, key: Key, from: nat): (r: Option<nat>)
    decreases |nodes| - from
    ensures r.Some? ==> from <= r.value < |nodes| && HasKey(nodes[r.value], key)
    ensures r.Some? ==> forall k :: from <= k < r.value ==> !HasKey(nodes[k], key)
    ensures r.None? <==> forall k :: from <= k < |nodes| ==> !HasKey(nodes[k], key)
  {
    if from >= |nodes| then None
    else if HasKey(nodes[from], key) then Some(from)
    else FindFrom(nodes, key, from + 1)
  }

  /** `MATCH (m:Memory {id: $id})` */
  function FindMemory(g: Graph, id: string): (r: Option<nat>)
    ensures r.Some? ==> r.value < |g.nodes| && g.nodes[r.value].Memory? && g.nodes[r.value].id == id
    ensures r.None? <==> forall k :: 0 <= k < |g.nodes| ==> !IsMemoryWithId(id, g.nodes[k])
  {
    FindFrom(g.nodes, MemoryKey(id), 0)
  }

  /** `MATCH (c:Component {name: $name})` */
  function FindComponent(g: Graph, name: string): (r: Option<nat>)
    ensures r.Some? ==> r.value < |g.nodes| && g.nodes[r.value].Component? && g.nodes[r.value].name == name
    ensures r.None? <==> forall k :: 0 <= k < |g.nodes| ==> !IsComponentNamed(name, g.nodes[k])
  {
    FindFrom(g.nodes, ComponentKey(name), 0)
  }

  /** `MATCH (d:Decision {id: $id})`, taking the first row as `result.single()` does. */
  function FindDecision(g: Graph, id: string): (r: Option<nat>)
    ensures r.Some? ==> r.value < |g.nodes| && g.nodes[r.value].Decision? && g.nodes[r.value].id == id
    ensures r.Some? ==> forall k :: 0 <= k < r.value ==> !IsDecisionWithId(id, g.nodes[k])
    ensures r.None? <==> forall k :: 0 <= k < |g.nodes| ==> !IsDecisionWithId(id, g.nodes[k])
  {
    FindFrom(g.nodes, DecisionKey(id), 0)
  }

  /** With unique keys, the Memory node found is the only one with that id. */
  lemma FindMemoryUnique(g: Graph, id: string, k: nat)
    requires KeysUnique(g)
    requires k < |g.nodes| && g.nodes[k].Memory? && g.nodes[k].id == id
    ensures FindMemory(g, id) == Some(k)
  {
    var r := FindMemory(g, id);
    assert !(forall j :: 0 <= j < |g.nodes| ==> !IsMemoryWithId(id, g.nodes[j]));
    assert r.Some?;
  }

  lemma FindComponentUnique(g: Graph, name: string, k: nat)
    requires KeysUnique(g)
    requires k < |g.nodes| && g.nodes[k].Component? && g.nodes[k].name == name
    ensures FindComponent(g, name) == Some(k)
  {
    var r := FindComponent(g, name);
    assert !(forall j :: 0 <= j < |g.nodes| ==> !IsComponentNamed(name, g.nodes[j]));
    assert r.Some?;
  }

  predicate Joins(e: Edge, src: nat, rel: string, dst: nat) {
    e.src == src && e.rel == rel && e.dst == dst
  }

  predicate HasEdge(edges: seq<Edge>, src: nat, rel: string, dst: nat) {
    exists k :: 0 <= k < |edges| && Joins(edges[k], src, rel, dst)
  }

  /** How many `(src)-[:rel]->(dst)` edges there are. */
  function CountEdges(edges: seq<Edge>, src: nat, rel: string, dst: nat): (r: nat)
    ensures r == 0 <==> !HasEdge(edges, src, rel, dst)
  {
    if edges == [] then 0
    else
      var p := edges[..|edges| - 1];
      var c := CountEdges(p, src, rel, dst) + (if Joins(edges[|edges| - 1], src, rel, dst) then 1 else 0);
      assert forall k :: 0 <= k < |p| ==> p[k] == edges[k];
      c
  }

  /** `MERGE (src)-[r:rel]->(dst) SET ...`: every existing matching edge gets its
      properties updated by `set`; when there is none, one edge is created whose
      properties are `set` applied to an empty property map. */
  function MergeEdge(edges: seq<Edge>, src: nat, rel: string, dst: nat,
                     update: EdgeProps -> EdgeProps): (r: seq<Edge>)
    ensures |r| == if HasEdge(edges, src, rel, dst) then |edges| else |edges| + 1
    ensures forall k :: 0 <= k < |edges| ==>
      r[k].src == edges[k].src && r[k].rel == edges[k].rel && r[k].dst == edges[k].dst
    ensures forall k :: 0 <= k < |edges| ==>
      r[k].props == if Joins(edges[k], src, rel, dst) then update(edges[k].props) else edges[k].props
    ensures !HasEdge(edges, src, rel, dst) ==> r[|edges|] == Edge(src, rel, dst, update(NoProps))
  {
    if HasEdge(edges, src, rel, dst) then
      seq(|edges|, k requires 0 <= k < |edges| =>
        if Joins(edges[k], src, rel, dst) then edges[k].(props := update(edges[k].props)) else edges[k])
    else
      edges + [Edge(src, rel, dst, update(NoProps))]
  }

  lemma {:induction false} CountEdgesSameShape(a: seq<Edge>, b: seq<Edge>, src: nat, rel: string, dst: nat)
    requires |a| == |b|
    requires forall k :: 0 <= k < |a| ==> a[k].src == b[k].src && a[k].rel == b[k].rel && a[k].dst == b[k].dst
    ensures CountEdges(a, src, rel, dst) == CountEdges(b, src, rel, dst)
  {
    if a != [] {
      CountEdgesSameShape(a[..|a| - 1], b[..|b| - 1], src, rel, dst);
    }
  }

  /** MERGE never duplicates: afterwards there is at least one matching edge, and
      exactly one when there was at most one before. */
  lemma MergeEdgeCount(edges: seq<Edge>, src: nat, rel: string, dst: nat, update: EdgeProps -> EdgeProps)
    ensures var before := CountEdges(edges, src, rel, dst);
            CountEdges(MergeEdge(edges, src, rel, dst, update), src, rel, dst)
              == if before == 0 then 1 else before
  {
    var r := MergeEdge(edges, src, rel, dst, update);
    if HasEdge(edges, src, rel, dst) {
      CountEdgesSameShape(r, edges, src, rel, dst);
    } else {
      assert r[..|r| - 1] == edges;
    }
  }

  /** Linking the same pair with the same rel twice leaves exactly one such edge. */
  lemma MergeTwiceSingleEdge(edges: seq<Edge>, src: nat, rel: string, dst: nat,
                             s1: EdgeProps -> EdgeProps, s2: EdgeProps -> EdgeProps)
    requires CountEdges(edges, src, rel, dst) <= 1
    ensures CountEdges(MergeEdge(MergeEdge(edges, src, rel, dst, s1), src, rel, dst, s2), src, rel, dst) == 1
  {
    MergeEdgeCount(edges, src, rel, dst, s1);
    MergeEdgeCount(MergeEdge(edges, src, rel, dst, s1), src, rel, dst, s2);
  }

  /** MERGE keeps every edge triple that was already present. */
  lemma MergeEdgeKeeps(edges: seq<Edge>, src: nat, rel: string, dst: nat, update: EdgeProps -> EdgeProps,
                       a: nat, l: string, b: nat)
    requires HasEdge(edges, a, l, b)
    ensures HasEdge(MergeEdge(edges, src, rel, dst, update), a, l, b)
  {
    var k :| 0 <= k < |edges| && Joins(edges[k], a, l, b);
    assert Joins(MergeEdge(edges, src, rel, dst, update)[k], a, l, b);
  }

  lemma MergeEdgeCreates(edges: seq<Edge>, src: nat, rel: string, dst: nat, update: EdgeProps -> EdgeProps)
    ensures HasEdge(MergeEdge(edges, src, rel, dst, update), src, rel, dst)
  {
    if HasEdge(edges, src, rel, dst) {
      MergeEdgeKeeps(edges, src, rel, dst, update, src, rel, dst);
    } else {
      var r := MergeEdge(edges, src, rel, dst, update);
      assert Joins(r[|edges|], src, rel, dst);
    }
  }

  /** Adding edges between existing nodes keeps the graph valid. */
  lemma MergeEdgeValid(g: Graph, src: nat, rel: string, dst: nat, update: EdgeProps -> EdgeProps)
    requires Valid(g) && src < |g.nodes| && dst < |g.nodes|
    ensures Valid(g.(edges := MergeEdge(g.edges, src, rel, dst, update)))
  {
  }
}
