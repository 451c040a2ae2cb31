/** The write operations of `MemoryIntelligence`: linking memories and components,
    creating components, conversation threads and decisions, and writing a trust
    score back. The database is the `graph` field; each method changes it as its
    Cypher statements do and keeps it valid. The read-only queries are functions
    of the graph value in the other modules. */
module Intelligence {
  import opened Common
  import opened GraphStore
  import opened Decisions
  import opened Scoring

  // ---------------------------------------------------------------------------
  // Statement semantics

  /** `SET r.created = datetime()` and, when metadata is supplied,
      `r.metadata = $metadata`. */
  function Stamp(metadata: Option<Metadata>, now: int): EdgeProps -> EdgeProps {
    (p: EdgeProps) => if Supplied(metadata) then p.(created := Some(now), metadata := metadata) else p.(created := Some(now))
  }

  /** The properties are overwritten only with what is supplied. */
  lemma StampMetadata(metadata: Option<Metadata>, now: int, p: EdgeProps)
    ensures Stamp(metadata, now)(p).created == Some(now)
    ensures Stamp(metadata, now)(p).metadata == if Supplied(metadata) then metadata else p.metadata
    ensures Stamp(metadata, now)(p).position == p.position && Stamp(metadata, now)(p).sessionId == p.sessionId
  {
  }

  /** `MERGE (a)-[r:rel]->(b) SET ...` on the graph: the nodes stay as they are. */
  function Link(g: Graph, a: nat, rel: string, b: nat, update: EdgeProps -> EdgeProps): (r: Graph)
    ensures r.nodes == g.nodes
  {
    g.(edges := MergeEdge(g.edges, a, rel, b, update))
  }

  /** Afterwards the pair is joined, by exactly one edge unless it already had
      several; between existing nodes, the graph stays valid. */
  lemma LinkJoins(g: Graph, a: nat, rel: string, b: nat, update: EdgeProps -> EdgeProps)
    ensures HasEdge(Link(g, a, rel, b, update).edges, a, rel, b)
    ensures var c := CountEdges(g.edges, a, rel, b);
      CountEdges(Link(g, a, rel, b, update).edges, a, rel, b) == if c == 0 then 1 else c
    ensures Valid(g) && a < |g.nodes| && b < |g.nodes| ==> Valid(Link(g, a, rel, b, update))
  {
    MergeEdgeCreates(g.edges, a, rel, b, update);
    MergeEdgeCount(g.edges, a, rel, b, update);
    if Valid(g) && a < |g.nodes| && b < |g.nodes| {
      MergeEdgeValid(g, a, rel, b, update);
    }
  }

  /** Linking the same pair with the same label twice leaves exactly one such
      edge, when there was at most one before. */
  lemma LinkTwice(g: Graph, a: nat, rel: string, b: nat, u1: EdgeProps -> EdgeProps, u2: EdgeProps -> EdgeProps)
    requires CountEdges(g.edges, a, rel, b) <= 1
    ensures CountEdges(Link(Link(g, a, rel, b, u1), a, rel, b, u2).edges, a, rel, b) == 1
  {
    LinkJoins(g, a, rel, b, u1);
    LinkJoins(Link(g, a, rel, b, u1), a, rel, b, u2);
  }

  /** Linking keeps every relationship that was already there. */
  lemma LinkKeeps(g: Graph, a: nat, rel: string, b: nat, update: EdgeProps -> EdgeProps, x: nat, l: string, y: nat)
    requires HasEdge(g.edges, x, l, y)
    ensures HasEdge(Link(g, a, rel, b, update).edges, x, l, y)
  {
    MergeEdgeKeeps(g.edges, a, rel, b, update, x, l, y);
  }

  /** `MERGE (c:Component {name: $name}) SET c.type = $type, c.created = datetime()`
      and, when supplied, `c.metadata = $metadata`. */
  function MergeComponent(g: Graph, name: string, kind: string, metadata: Option<Metadata>, now: int): (r: Graph)
    requires Valid(g)
    ensures Valid(r) && r.edges == g.edges
    ensures |r.nodes| == if FindComponent(g, name).Some? then |g.nodes| else |g.nodes| + 1
    ensures FindComponent(r, name).Some?
    ensures var c := r.nodes[FindComponent(r, name).value];
      && c.kind == kind && c.created == Some(now)
      && c.metadata == if Supplied(metadata) then metadata
                       else if FindComponent(g, name).Some? then g.nodes[FindComponent(g, name).value].metadata
                       else None
    ensures forall k :: 0 <= k < |g.nodes| && !IsComponentNamed(name, g.nodes[k]) ==> r.nodes[k] == g.nodes[k]
  {
    match FindComponent(g, name)
    case Some(c) =>
      var old_ := g.nodes[c];
      var n := Component(name, kind, Some(now), if Supplied(metadata) then metadata else old_.metadata);
      var r := g.(nodes := g.nodes[c := n]);
      FindComponentUnique(r, name, c);
      r
    case None =>
      var n := Component(name, kind, Some(now), if Supplied(metadata) then metadata else None);
      var r := g.(nodes := g.nodes + [n]);
      FindComponentUnique(r, name, |g.nodes|);
      r
  }

  /** Creating the same component twice leaves one Component of that name. */
  lemma MergeComponentTwice(g: Graph, name: string, k1: string, k2: string,
                            m1: Option<Metadata>, m2: Option<Metadata>, t1: int, t2: int)
    requires Valid(g)
    ensures var r := MergeComponent(MergeComponent(g, name, k1, m1, t1), name, k2, m2, t2);
      |r.nodes| == if FindComponent(g, name).Some? then |g.nodes| else |g.nodes| + 1
  {
  }

  /** `SET m.trust_score = $score` on the memory at `m`. */
  function SetTrust(g: Graph, m: nat, score: real): (r: Graph)
    requires m < |g.nodes| && g.nodes[m].Memory?
    ensures r.edges == g.edges && |r.nodes| == |g.nodes|
    ensures r.nodes[m] == g.nodes[m].(trustScore := Some(score))
    ensures forall k :: 0 <= k < |g.nodes| && k != m ==> r.nodes[k] == g.nodes[k]
  {
    g.(nodes := g.nodes[m := g.nodes[m].(trustScore := Some(score))])
  }

  /** Writing the score back changes nothing it was computed from: computing it
      again gives the same report. */
  lemma TrustStable(g: Graph, id: string, now: int)
    requires Valid(g) && CalculateTrust(g, id, now).Scored?
    ensures var m := FindMemory(g, id).value;
      var r := SetTrust(g, m, CalculateTrust(g, id, now).report.trustScore);
      Valid(r) && CalculateTrust(r, id, now) == CalculateTrust(g, id, now)
  {
    var m := FindMemory(g, id).value;
    var r := SetTrust(g, m, CalculateTrust(g, id, now).report.trustScore);
    FindMemoryUnique(r, id, m);
    assert ConfirmedValidations(r, m) == ConfirmedValidations(g, m);
    assert Citers(r, m) == Citers(g, m);
  }

  /** `SET r.position = $position, r.session_id = $session_id` (a null session id
      removes the property). */
  function ThreadProps(position: nat, session: Option<string>): EdgeProps -> EdgeProps {
    (p: EdgeProps) => p.(position := Some(position), sessionId := session)
  }

  /** One step of the thread loop: the RESPONDS_TO edge from `memories[i + 1]` to
      `memories[i]`, skipped when either is missing. */
  function ThreadStep(g: Graph, memories: seq<string>, i: nat, session: Option<string>): (r: Graph)
    requires i + 1 < |memories|
    ensures r.nodes == g.nodes
  {
    var a := FindMemory(g, memories[i]);
    var b := FindMemory(g, memories[i + 1]);
    if a.Some? && b.Some? then Link(g, b.value, RESPONDS_TO, a.value, ThreadProps(i, session)) else g
  }

  /** The thread loop after its first `n` steps; it keeps the graph valid. */
  function ThreadGraph(g: Graph, memories: seq<string>, session: Option<string>, n: nat): (r: Graph)
    requires n < |memories|
    ensures r.nodes == g.nodes
    ensures Valid(g) ==> Valid(r)
  {
    if n == 0 then g
    else
      var h := ThreadGraph(g, memories, session, n - 1);
      ThreadStepValid(h, memories, n - 1, session);
      ThreadStep(h, memories, n - 1, session)
  }

  /** One more step of the loop is one more `ThreadStep`. */
  lemma ThreadGraphNext(g: Graph, memories: seq<string>, session: Option<string>, i: nat)
    requires i + 1 < |memories|
    ensures ThreadGraph(g, memories, session, i + 1)
         == ThreadStep(ThreadGraph(g, memories, session, i), memories, i, session)
  {
  }

  lemma ThreadStepValid(g: Graph, memories: seq<string>, i: nat, session: Option<string>)
    requires i + 1 < |memories|
    ensures Valid(g) ==> Valid(ThreadStep(g, memories, i, session))
  {
    var a := FindMemory(g, memories[i]);
    var b := FindMemory(g, memories[i + 1]);
    if a.Some? && b.Some? {
      LinkJoins(g, b.value, RESPONDS_TO, a.value, ThreadProps(i, session));
    }
  }

  /** Step `n` of the loop keeps every RESPONDS_TO edge that was there before it. */
  lemma ThreadGraphStepKeeps(g: Graph, memories: seq<string>, session: Option<string>, n: nat, x: nat, y: nat)
    requires 0 < n < |memories| && HasEdge(ThreadGraph(g, memories, session, n - 1).edges, x, RESPONDS_TO, y)
    ensures HasEdge(ThreadGraph(g, memories, session, n).edges, x, RESPONDS_TO, y)
  {
    var h := ThreadGraph(g, memories, session, n - 1);
    ThreadStepKeeps(h, memories, n - 1, session, x, y);
  }

  lemma ThreadStepKeeps(g: Graph, memories: seq<string>, i: nat, session: Option<string>, x: nat, y: nat)
    requires i + 1 < |memories| && HasEdge(g.edges, x, RESPONDS_TO, y)
    ensures HasEdge(ThreadStep(g, memories, i, session).edges, x, RESPONDS_TO, y)
  {
    var a := FindMemory(g, memories[i]);
    var b := FindMemory(g, memories[i + 1]);
    if a.Some? && b.Some? {
      LinkKeeps(g, b.value, RESPONDS_TO, a.value, ThreadProps(i, session), x, RESPONDS_TO, y);
    }
  }

  lemma ThreadStepLinks(g: Graph, memories: seq<string>, i: nat, session: Option<string>)
    requires i + 1 < |memories|
    requires FindMemory(g, memories[i]).Some? && FindMemory(g, memories[i + 1]).Some?
    ensures HasEdge(ThreadStep(g, memories, i, session).edges,
                    FindMemory(g, memories[i + 1]).value, RESPONDS_TO, FindMemory(g, memories[i]).value)
  {
    LinkJoins(g, FindMemory(g, memories[i + 1]).value, RESPONDS_TO, FindMemory(g, memories[i]).value, ThreadProps(i, session));
  }

  /** Later steps keep the edges of earlier ones. */
  lemma {:induction false} ThreadKeeps(g: Graph, memories: seq<string>, session: Option<string>, j: nat, n: nat,
                                       x: nat, y: nat)
    requires j <= n < |memories|
    requires HasEdge(ThreadGraph(g, memories, session, j).edges, x, RESPONDS_TO, y)
    ensures HasEdge(ThreadGraph(g, memories, session, n).edges, x, RESPONDS_TO, y)
    decreases n
  {
    if j < n {
      ThreadKeeps(g, memories, session, j, n - 1, x, y);
      ThreadGraphStepKeeps(g, memories, session, n, x, y);
    }
  }

  /** Step `i` of the loop joins the `i`-th pair when both ids name memories. */
  lemma ThreadLinksAt(g: Graph, memories: seq<string>, session: Option<string>, i: nat)
    requires i + 1 < |memories|
    requires FindMemory(g, memories[i]).Some? && FindMemory(g, memories[i + 1]).Some?
    ensures HasEdge(ThreadGraph(g, memories, session, i + 1).edges,
                    FindMemory(g, memories[i + 1]).value, RESPONDS_TO, FindMemory(g, memories[i]).value)
  {
    var h := ThreadGraph(g, memories, session, i);
    SameNodesSameMemories(h, g, memories[i]);
    SameNodesSameMemories(h, g, memories[i + 1]);
    ThreadStepLinks(h, memories, i, session);
  }

  /** Every consecutive pair of ids that both name memories ends up joined by a
      RESPONDS_TO edge from the later to the earlier one; no memory is added. */
  lemma ThreadLinksPairs(g: Graph, memories: seq<string>, session: Option<string>, i: nat)
    requires i + 1 < |memories|
    requires FindMemory(g, memories[i]).Some? && FindMemory(g, memories[i + 1]).Some?
    ensures var r := ThreadGraph(g, memories, session, |memories| - 1);
      HasEdge(r.edges, FindMemory(g, memories[i + 1]).value, RESPONDS_TO, FindMemory(g, memories[i]).value)
  {
    ThreadLinksAt(g, memories, session, i);
    ThreadKeeps(g, memories, session, i + 1, |memories| - 1,
                FindMemory(g, memories[i + 1]).value, FindMemory(g, memories[i]).value);
  }

  /** The edge, when it is a RESPONDS_TO edge from `x` to `y`, carries `position`
      and `sessionId`. */
  predicate PropsFit(e: Edge, x: nat, y: nat, position: nat, session: Option<string>) {
    Joins(e, x, RESPONDS_TO, y) ==> e.props.position == Some(position) && e.props.sessionId == session
  }

  /** Every RESPONDS_TO edge from `x` to `y` carries `position` and `sessionId`. */
  predicate ThreadPropsOn(edges: seq<Edge>, x: nat, y: nat, position: nat, session: Option<string>) {
    forall k :: 0 <= k < |edges| ==> PropsFit(edges[k], x, y, position, session)
  }

  /** Step `i` stamps its position and the session id on every edge it merges. */
  lemma ThreadStepSetsProps(g: Graph, memories: seq<string>, i: nat, session: Option<string>)
    requires i + 1 < |memories|
    requires FindMemory(g, memories[i]).Some? && FindMemory(g, memories[i + 1]).Some?
    ensures ThreadPropsOn(ThreadStep(g, memories, i, session).edges,
                          FindMemory(g, memories[i + 1]).value, FindMemory(g, memories[i]).value, i, session)
  {
    var x := FindMemory(g, memories[i + 1]).value;
    var y := FindMemory(g, memories[i]).value;
    var r := ThreadStep(g, memories, i, session).edges;
    assert r == MergeEdge(g.edges, x, RESPONDS_TO, y, ThreadProps(i, session));
    forall k | 0 <= k < |r| ensures PropsFit(r[k], x, y, i, session) {
      if k < |g.edges| && Joins(r[k], x, RESPONDS_TO, y) {
        assert Joins(g.edges[k], x, RESPONDS_TO, y);
      }
    }
  }

  /** A step that joins another pair of memories leaves those properties alone. */
  lemma ThreadStepKeepsProps(g: Graph, memories: seq<string>, i: nat, session: Option<string>,
                             x: nat, y: nat, position: nat, s: Option<string>)
    requires i + 1 < |memories| && ThreadPropsOn(g.edges, x, y, position, s)
    requires FindMemory(g, memories[i + 1]) != Some(x) || FindMemory(g, memories[i]) != Some(y)
    ensures ThreadPropsOn(ThreadStep(g, memories, i, session).edges, x, y, position, s)
  {
    var a := FindMemory(g, memories[i]);
    var b := FindMemory(g, memories[i + 1]);
    if a.Some? && b.Some? {
      var r := ThreadStep(g, memories, i, session).edges;
      assert r == MergeEdge(g.edges, b.value, RESPONDS_TO, a.value, ThreadProps(i, session));
      forall k | 0 <= k < |r| ensures PropsFit(r[k], x, y, position, s) {
        if k < |g.edges| && Joins(r[k], x, RESPONDS_TO, y) {
          assert PropsFit(g.edges[k], x, y, position, s);
          assert !Joins(g.edges[k], b.value, RESPONDS_TO, a.value);
        }
      }
    }
  }

  /** Steps `i` and `j` name the same pair of ids. */
  predicate SamePair(memories: seq<string>, i: nat, j: nat)
    requires i + 1 < |memories| && j + 1 < |memories|
  {
    memories[j] == memories[i] && memories[j + 1] == memories[i + 1]
  }

  /** After the whole loop, the link of the last step that names a given pair of
      ids carries that step's position and the session id: a later step on the
      same pair would overwrite them, and no other step touches them. */
  lemma ThreadPropsLast(g: Graph, memories: seq<string>, session: Option<string>, i: nat, x: nat, y: nat)
    requires i + 1 < |memories|
    requires FindMemory(g, memories[i + 1]) == Some(x) && FindMemory(g, memories[i]) == Some(y)
    requires forall j :: i < j < |memories| - 1 ==> !SamePair(memories, i, j)
    ensures ThreadPropsOn(ThreadGraph(g, memories, session, |memories| - 1).edges, x, y, i, session)
  {
    ThreadPropsFrom(g, memories, session, i, |memories| - 1, x, y);
  }

  lemma {:induction false} ThreadPropsFrom(g: Graph, memories: seq<string>, session: Option<string>, i: nat, n: nat,
                                           x: nat, y: nat)
    requires i + 1 <= n < |memories|
    requires FindMemory(g, memories[i + 1]) == Some(x) && FindMemory(g, memories[i]) == Some(y)
    requires forall j :: i < j < n ==> !SamePair(memories, i, j)
    ensures ThreadPropsOn(ThreadGraph(g, memories, session, n).edges, x, y, i, session)
    decreases n
  {
    if n == i + 1 {
      ThreadPropsSetAt(g, memories, session, i, n, x, y);
    } else {
      ThreadPropsFrom(g, memories, session, i, n - 1, x, y);
      ThreadPropsOtherPair(g, memories, session, i, n, x, y);
    }
  }

  lemma ThreadPropsOtherPair(g: Graph, memories: seq<string>, session: Option<string>, i: nat, n: nat,
                             x: nat, y: nat)
    requires i + 1 < |memories| && 0 < n < |memories| && !SamePair(memories, i, n - 1)
    requires FindMemory(g, memories[i + 1]) == Some(x) && FindMemory(g, memories[i]) == Some(y)
    requires ThreadPropsOn(ThreadGraph(g, memories, session, n - 1).edges, x, y, i, session)
    ensures ThreadPropsOn(ThreadGraph(g, memories, session, n).edges, x, y, i, session)
  {
    OtherIdsOtherNodes(g, memories[i + 1], memories[i], memories[n], memories[n - 1]);
    ThreadPropsKeptAt(g, memories, session, n, x, y, i);
  }

  lemma ThreadPropsSetAt(g: Graph, memories: seq<string>, session: Option<string>, i: nat, n: nat, x: nat, y: nat)
    requires n == i + 1 < |memories|
    requires FindMemory(g, memories[i + 1]) == Some(x) && FindMemory(g, memories[i]) == Some(y)
    ensures ThreadPropsOn(ThreadGraph(g, memories, session, n).edges, x, y, i, session)
  {
    var h := ThreadGraph(g, memories, session, i);
    SameNodesSameMemories(h, g, memories[i]);
    SameNodesSameMemories(h, g, memories[i + 1]);
    ThreadStepSetsProps(h, memories, i, session);
  }

  lemma ThreadPropsKeptAt(g: Graph, memories: seq<string>, session: Option<string>, n: nat,
                          x: nat, y: nat, position: nat)
    requires 0 < n < |memories|
    requires ThreadPropsOn(ThreadGraph(g, memories, session, n - 1).edges, x, y, position, session)
    requires FindMemory(g, memories[n]) != Some(x) || FindMemory(g, memories[n - 1]) != Some(y)
    ensures ThreadPropsOn(ThreadGraph(g, memories, session, n).edges, x, y, position, session)
  {
    var h := ThreadGraph(g, memories, session, n - 1);
    SameNodesSameMemories(h, g, memories[n - 1]);
    SameNodesSameMemories(h, g, memories[n]);
    ThreadStepKeepsProps(h, memories, n - 1, session, x, y, position, session);
  }

  /** Memory nodes carry their id, so different ids never find the same node. */
  lemma OtherIdsOtherNodes(g: Graph, a: string, b: string, a2: string, b2: string)
    requires FindMemory(g, a).Some? && FindMemory(g, b).Some? && (a2 != a || b2 != b)
    ensures FindMemory(g, a2) != Some(FindMemory(g, a).value) || FindMemory(g, b2) != Some(FindMemory(g, b).value)
  {
  }

  lemma SameNodesSameMemories(g: Graph, h: Graph, id: string)
    requires g.nodes == h.nodes
    ensures FindMemory(g, id) == FindMemory(h, id)
  {
  }

  // ---------------------------------------------------------------------------
  // Results

  datatype LinkOutcome =
    | MemoriesLinked(fromMemoryId: string, relationship: string, toMemoryId: string, metadata: Option<Metadata>)
    | ComponentsLinked(from: string, relationship: string, to: string)
    | MemoryAffects(memoryId: string, affects: string)
    | LinkError(message: string)
    /** The relationship type spliced into the statement is not a Cypher name: a syntax error, nothing written. */
    | QueryError

  datatype ComponentInfo = ComponentInfo(name: string, kind: string, metadata: Option<Metadata>)

  datatype ThreadOutcome =
    | Threaded(threadLength: nat, sessionId: Option<string>, memoryIds: seq<string>)
    | ThreadError(message: string)

  datatype DecisionEcho = DecisionEcho(decisionId: string, text: string, pros: seq<string>,
                                       cons: seq<string>, alternatives: seq<string>)

  const MEMORIES_NOT_FOUND := "Memories not found"
  const COMPONENTS_NOT_FOUND := "Components not found"
  const MEMORY_OR_COMPONENT_NOT_FOUND := "Memory or component not found"
  const THREAD_TOO_SHORT := "Need at least 2 memories for a thread"

  predicate NameStart(c: char) {
    'A' <= c <= 'Z' || 'a' <= c <= 'z' || c == '_'
  }

  /**
   * A relationship type that Cypher parses when it is pasted unquoted after `[r:`:
   * a letter or underscore followed by letters, digits and underscores.
   */
  predicate CypherName(rel: string) {
    && |rel| > 0
    && NameStart(rel[0])
    && forall k :: 1 <= k < |rel| ==> NameStart(rel[k]) || IsDigit(rel[k])
  }

  /** The endpoints' defaults are names, so a request that leaves the type out never meets the syntax error. */
  lemma DefaultTypesAreNames()
    ensures CypherName("RELATES_TO") && CypherName("DEPENDS_ON")
    ensures !CypherName("") && !CypherName("depends on")
  {
    assert "depends on"[7] == ' ';
  }

  // ---------------------------------------------------------------------------
  // The engine

  class MemoryIntelligence {
    /** The contents of the Neo4j database. */
    var graph: Graph

    constructor (initial: Graph)
      requires Valid(initial)
      ensures graph == initial
    {
      graph := initial;
    }

    /** `link_memories(memory_id_1, memory_id_2, relationship_type, metadata)` */
    method LinkMemories(id1: string, id2: string, rel: string, metadata: Option<Metadata>, now: int)
      returns (r: LinkOutcome)
      requires Valid(graph)
      modifies this
      ensures Valid(graph)
      ensures r.QueryError? <==> !CypherName(rel)
      ensures r.LinkError? <==>
        CypherName(rel) && (FindMemory(old(graph), id1).None? || FindMemory(old(graph), id2).None?)
      ensures r.QueryError? ==> graph == old(graph)
      ensures r.LinkError? ==> r.message == MEMORIES_NOT_FOUND && graph == old(graph)
      ensures !r.LinkError? && !r.QueryError? ==>
        && r == MemoriesLinked(id1, rel, id2, metadata)
        && graph == Link(old(graph), FindMemory(old(graph), id1).value, rel, FindMemory(old(graph), id2).value,
                         Stamp(metadata, now))
    {
      if !CypherName(rel) {
        return QueryError;
      }
      var a := FindMemory(graph, id1);
      var b := FindMemory(graph, id2);
      if a.None? || b.None? {
        return LinkError(MEMORIES_NOT_FOUND);
      }
      LinkJoins(graph, a.value, rel, b.value, Stamp(metadata, now));
      graph := Link(graph, a.value, rel, b.value, Stamp(metadata, now));
      r := MemoriesLinked(id1, rel, id2, metadata);
    }

    /** `create_component(name, component_type, metadata)` */
    method CreateComponent(name: string, kind: string, metadata: Option<Metadata>, now: int)
      returns (r: ComponentInfo)
      requires Valid(graph)
      modifies this
      ensures Valid(graph)
      ensures graph == MergeComponent(old(graph), name, kind, metadata, now)
      ensures r == ComponentInfo(name, kind, metadata)
    {
      graph := MergeComponent(graph, name, kind, metadata, now);
      r := ComponentInfo(name, kind, metadata);
    }

    /** `link_component_dependency(component_from, component_to, dependency_type)` */
    method LinkComponentDependency(from: string, to: string, depType: string, now: int)
      returns (r: LinkOutcome)
      requires Valid(graph)
      modifies this
      ensures Valid(graph)
      ensures r.QueryError? <==> !CypherName(depType)
      ensures r.LinkError? <==>
        CypherName(depType) && (FindComponent(old(graph), from).None? || FindComponent(old(graph), to).None?)
      ensures r.QueryError? ==> graph == old(graph)
      ensures r.LinkError? ==> r.message == COMPONENTS_NOT_FOUND && graph == old(graph)
      ensures !r.LinkError? && !r.QueryError? ==>
        && r == ComponentsLinked(from, depType, to)
        && graph == Link(old(graph), FindComponent(old(graph), from).value, depType,
                         FindComponent(old(graph), to).value, Stamp(None, now))
    {
      if !CypherName(depType) {
        return QueryError;
      }
      var a := FindComponent(graph, from);
      var b := FindComponent(graph, to);
      if a.None? || b.None? {
        return LinkError(COMPONENTS_NOT_FOUND);
      }
      LinkJoins(graph, a.value, depType, b.value, Stamp(None, now));
      graph := Link(graph, a.value, depType, b.value, Stamp(None, now));
      r := ComponentsLinked(from, depType, to);
    }

    /** `link_memory_to_component(memory_id, component_name)` */
    method LinkMemoryToComponent(memoryId: string, component: string, now: int)
      returns (r: LinkOutcome)
      requires Valid(graph)
      modifies this
      ensures Valid(graph)
      ensures r.LinkError? <==> FindMemory(old(graph), memoryId).None? || FindComponent(old(graph), component).None?
      ensures r.LinkError? ==> r.message == MEMORY_OR_COMPONENT_NOT_FOUND && graph == old(graph)
      ensures !r.LinkError? ==>
        && r == MemoryAffects(memoryId, component)
        && graph == Link(old(graph), FindMemory(old(graph), memoryId).value, AFFECTS,
                         FindComponent(old(graph), component).value, Stamp(None, now))
    {
      var m := FindMemory(graph, memoryId);
      var c := FindComponent(graph, component);
      if m.None? || c.None? {
        return LinkError(MEMORY_OR_COMPONENT_NOT_FOUND);
      }
      LinkJoins(graph, m.value, AFFECTS, c.value, Stamp(None, now));
      graph := Link(graph, m.value, AFFECTS, c.value, Stamp(None, now));
      r := MemoryAffects(memoryId, component);
    }

    /** `create_conversation_thread(memories, session_id)`: the pairwise loop. */
    method CreateConversationThread(memories: seq<string>, session: Option<string>)
      returns (r: ThreadOutcome)
      requires Valid(graph)
      modifies this
      ensures Valid(graph)
      ensures r.ThreadError? <==> |memories| < 2
      ensures r.ThreadError? ==> r.message == THREAD_TOO_SHORT && graph == old(graph)
      ensures r.Threaded? ==>
        && r == Threaded(|memories|, session, memories)
        && graph == ThreadGraph(old(graph), memories, session, |memories| - 1)
    {
      if |memories| < 2 {
        return ThreadError(THREAD_TOO_SHORT);
      }
      LinkPairs(memories, session);
      r := Threaded(|memories|, session, memories);
    }

    /** The loop of `create_conversation_thread`: one RESPONDS_TO link per
        consecutive pair. */
    method LinkPairs(memories: seq<string>, session: Option<string>)
      requires |memories| >= 1
      modifies this
      ensures graph == ThreadGraph(old(graph), memories, session, |memories| - 1)
    {
      var h := graph;
      ghost var g0 := graph;
      var i := 0;
      while i < |memories| - 1
        invariant 0 <= i <= |memories| - 1
        invariant h == ThreadGraph(g0, memories, session, i)
      {
        ThreadGraphNext(g0, memories, session, i);
        h := ThreadStep(h, memories, i, session);
        i := i + 1;
      }
      graph := h;
    }

    /** The pros (or cons) loop of `create_decision`: one Argument node and one
        edge from the decision `d` per text, with its index as `order`. */
    method AddArguments(d: nat, kind: ArgKind, rel: string, texts: seq<string>)
      modifies this
      ensures graph == WithArguments(old(graph), d, kind, rel, texts)
    {
      ghost var g0 := graph;
      for i := 0 to |texts|
        invariant graph == WithArguments(g0, d, kind, rel, texts[..i])
      {
        WithArgumentsStep(g0, d, kind, rel, texts, i);
        graph := AddArgument(graph, d, kind, rel, texts[i], i);
      }
      assert texts[..|texts|] == texts;
    }

    /** The alternatives loop of `create_decision`. */
    method LinkAlternatives(d: nat, alts: seq<string>, altStamps: seq<string>, now: int)
      requires |altStamps| == |alts|
      modifies this
      ensures graph == AddAlternatives(old(graph), d, alts, altStamps, now)
    {
      ghost var g0 := graph;
      for i := 0 to |alts|
        invariant graph == AddAlternatives(g0, d, alts[..i], altStamps[..i], now)
      {
        assert alts[..i + 1][..i] == alts[..i] && altStamps[..i + 1][..i] == altStamps[..i];
        graph := AddAlternative(graph, d, alts[i], AltId(altStamps[i], alts[i]), now);
      }
      assert alts[..|alts|] == alts && altStamps[..|altStamps|] == altStamps;
    }

    /** `create_decision(text, user_id, pros, cons, alternatives, metadata)`. The
        timestamp the ids are made from is the parameter `stamp` (and `altStamps`,
        one per alternative). */
    method CreateDecision(stamp: string, text: string, userId: string, pros: Option<seq<string>>,
                          cons: Option<seq<string>>, alternatives: Option<seq<string>>,
                          altStamps: seq<string>, metadata: Option<Metadata>, now: int)
      returns (r: DecisionEcho)
      requires Valid(graph) && FreshDecisionId(graph, DecisionId(stamp))
      requires |altStamps| == |OrEmpty(alternatives)|
      modifies this
      ensures Valid(graph)
      ensures graph == CreateDecisionGraph(old(graph), DecisionNode(DecisionId(stamp), text, userId, now, metadata),
                                           OrEmpty(pros), OrEmpty(cons), OrEmpty(alternatives), altStamps, now)
      ensures r == DecisionEcho(DecisionId(stamp), text, OrEmpty(pros), OrEmpty(cons), OrEmpty(alternatives))
    {
      var ps, cs, alts := OrEmpty(pros), OrEmpty(cons), OrEmpty(alternatives);
      var node := DecisionNode(DecisionId(stamp), text, userId, now, metadata);
      ghost var g0 := graph;
      var d := |graph.nodes|;
      graph := CreateDecisionNode(graph, node);
      AddArguments(d, Pro, BASED_ON, ps);
      AddArguments(d, Con, CONSIDERED, cs);
      LinkAlternatives(d, alts, altStamps, now);
      CreateDecisionValid(g0, node, ps, cs, alts, altStamps, now);
      r := DecisionEcho(DecisionId(stamp), text, ps, cs, alts);
    }

    /** `calculate_trust_score(memory_id)`: computes the score and writes it back
        to the memory. */
    method CalculateTrustScore(id: string, now: int) returns (r: TrustOutcome)
      requires Valid(graph)
      modifies this
      ensures Valid(graph)
      ensures r == CalculateTrust(old(graph), id, now)
      ensures r.MemoryNotFound? ==> graph == old(graph)
      ensures r.Scored? ==> graph == SetTrust(old(graph), FindMemory(old(graph), id).value, r.report.trustScore)
    {
      r := CalculateTrust(graph, id, now);
      if r.Scored? {
        TrustStable(graph, id, now);
        graph := SetTrust(graph, FindMemory(graph, id).value, r.report.trustScore);
      }
    }
  }
}
