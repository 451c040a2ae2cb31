/** Temporal queries over SUPERSEDES edges: `get_memory_evolution` (the memories of
    one topic in time order, each with what it superseded) and
    `find_superseded_memories` (the obsolete/current pairs of one user, newest
    replacement first). Timestamps are integer seconds; a memory without `created`
    has a null timestamp. */
module Temporal {
  import opened Common
  import opened GraphStore
  import opened Ordering

  datatype EvolutionRow = EvolutionRow(memoryId: string, text: string, created: Option<int>,
                                       version: Option<string>, superseded: Option<MemoryRef>)

  /** `m.created >= $start_date AND m.created <= $end_date`, each bound only when
      given; a comparison with a null `created` is not true, so such memories are
      dropped whenever a bound is given. */
  predicate InWindow(created: Option<int>, start: Option<int>, end: Option<int>) {
    && (start.None? || (created.Some? && created.value >= start.value))
    && (end.None? || (created.Some? && created.value <= end.value))
  }

  /** `MATCH (m:Memory) WHERE m.topic = $topic ...` */
  predicate OnTopic(n: Node, topic: string, start: Option<int>, end: Option<int>) {
    n.Memory? && n.topic == Some(topic) && InWindow(n.created, start, end)
  }

  /** `(m)-[:SUPERSEDES]->(old:Memory)` for the edge `e`. */
  predicate SupersedesFrom(g: Graph, m: nat, e: Edge) {
    e.src == m && e.rel == SUPERSEDES && e.dst < |g.nodes| && g.nodes[e.dst].Memory?
  }

  /** The `superseded` entry: present only when the old id is truthy. */
  function SupersededEntry(prior: Node): (r: Option<MemoryRef>)
    requires prior.Memory?
    ensures r.Some? <==> prior.id != ""
    ensures r.Some? ==> r.value == MemoryRef(prior.id, prior.text)
  {
    if prior.id != "" then Some(MemoryRef(prior.id, prior.text)) else None
  }

  function RowFor(m: Node, sup: Option<MemoryRef>): EvolutionRow
    requires m.Memory?
  {
    EvolutionRow(m.id, m.text, m.created, m.version, sup)
  }

  /** The rows of the OPTIONAL MATCH for memory `m` over the edges `es`. */
  function SupersedeRows(g: Graph, m: nat, es: seq<Edge>): (r: seq<EvolutionRow>)
    requires m < |g.nodes| && g.nodes[m].Memory?
    ensures forall row :: row in r ==> row.memoryId == g.nodes[m].id && row.created == g.nodes[m].created
    ensures forall k :: 0 <= k < |es| && SupersedesFrom(g, m, es[k]) ==>
      RowFor(g.nodes[m], SupersededEntry(g.nodes[es[k].dst])) in r
    ensures |r| == CountWhere(es, e => SupersedesFrom(g, m, e))
  {
    if es == [] then []
    else
      var e := es[|es| - 1];
      var p := es[..|es| - 1];
      assert forall k :: 0 <= k < |p| ==> p[k] == es[k];
      SupersedeRows(g, m, p) + (if SupersedesFrom(g, m, e) then [RowFor(g.nodes[m], SupersededEntry(g.nodes[e.dst]))] else [])
  }

  /** OPTIONAL MATCH: when nothing matches, one row with the old memory null. */
  function RowsOfMemory(g: Graph, m: nat): (r: seq<EvolutionRow>)
    requires m < |g.nodes| && g.nodes[m].Memory?
    ensures |r| >= 1
    ensures forall row :: row in r ==> row.memoryId == g.nodes[m].id && row.created == g.nodes[m].created
  {
    var rows := SupersedeRows(g, m, g.edges);
    if rows == [] then [RowFor(g.nodes[m], None)] else rows
  }

  /** Rows for the nodes `0..n` in node order, before ORDER BY. */
  function EvolutionRowsUpTo(g: Graph, topic: string, start: Option<int>, end: Option<int>, n: nat): (r: seq<EvolutionRow>)
    requires n <= |g.nodes|
    ensures forall row :: row in r ==> InWindow(row.created, start, end)
    ensures forall m :: 0 <= m < n && OnTopic(g.nodes[m], topic, start, end) ==>
      exists row :: row in r && row.memoryId == g.nodes[m].id
  {
    if n == 0 then []
    else
      var p := EvolutionRowsUpTo(g, topic, start, end, n - 1);
      if OnTopic(g.nodes[n - 1], topic, start, end) then
        var here := RowsOfMemory(g, n - 1);
        assert here[0] in here;
        p + here
      else p
  }

  function CreatedOf(row: EvolutionRow): Option<int> {
    row.created
  }

  /** `get_memory_evolution(topic, start_date, end_date)` */
  function GetMemoryEvolution(g: Graph, topic: string, start: Option<int>, end: Option<int>): (r: seq<EvolutionRow>)
    ensures SortedBy(r, CreatedOf, false)
    ensures multiset(r) == multiset(EvolutionRowsUpTo(g, topic, start, end, |g.nodes|))
  {
    SortBy(EvolutionRowsUpTo(g, topic, start, end, |g.nodes|), CreatedOf, false)
  }

  /** Every memory of the topic inside the date window is reported, and every
      reported row lies inside the window. */
  lemma EvolutionCoversTopic(g: Graph, topic: string, start: Option<int>, end: Option<int>, m: nat)
    requires m < |g.nodes| && OnTopic(g.nodes[m], topic, start, end)
    ensures exists row :: row in GetMemoryEvolution(g, topic, start, end) && row.memoryId == g.nodes[m].id
    ensures forall row :: row in GetMemoryEvolution(g, topic, start, end) ==> InWindow(row.created, start, end)
    ensures forall row :: row in GetMemoryEvolution(g, topic, start, end) ==>
      exists k: nat :: k < |g.nodes| && OnTopic(g.nodes[k], topic, start, end) && row.memoryId == g.nodes[k].id
  {
    var all := EvolutionRowsUpTo(g, topic, start, end, |g.nodes|);
    var row :| row in all && row.memoryId == g.nodes[m].id;
    SortByMembers(all, CreatedOf, false, row);
    forall r | r in GetMemoryEvolution(g, topic, start, end)
      ensures InWindow(r.created, start, end)
      ensures exists k: nat :: k < |g.nodes| && OnTopic(g.nodes[k], topic, start, end) && r.memoryId == g.nodes[k].id
    {
      SortByMembers(all, CreatedOf, false, r);
      var k := EvolutionRowSource(g, topic, start, end, |g.nodes|, r);
    }
  }

  /** A SUPERSEDES edge out of a reported memory shows up as its `superseded` entry. */
  lemma EvolutionShowsSuperseded(g: Graph, topic: string, start: Option<int>, end: Option<int>, k: nat)
    requires k < |g.edges| && g.edges[k].src < |g.nodes|
    requires OnTopic(g.nodes[g.edges[k].src], topic, start, end) && SupersedesFrom(g, g.edges[k].src, g.edges[k])
    ensures RowFor(g.nodes[g.edges[k].src], SupersededEntry(g.nodes[g.edges[k].dst])) in GetMemoryEvolution(g, topic, start, end)
  {
    var m := g.edges[k].src;
    var row := RowFor(g.nodes[m], SupersededEntry(g.nodes[g.edges[k].dst]));
    assert row in RowsOfMemory(g, m);
    EvolutionRowsContain(g, topic, start, end, |g.nodes|, m, row);
    SortByMembers(EvolutionRowsUpTo(g, topic, start, end, |g.nodes|), CreatedOf, false, row);
  }

  /** Every row is about a memory of the topic inside the window. */
  lemma {:induction false} EvolutionRowSource(g: Graph, topic: string, start: Option<int>, end: Option<int>,
                                              n: nat, row: EvolutionRow) returns (m: nat)
    requires n <= |g.nodes| && row in EvolutionRowsUpTo(g, topic, start, end, n)
    ensures m < n && OnTopic(g.nodes[m], topic, start, end) && row.memoryId == g.nodes[m].id
  {
    var p := EvolutionRowsUpTo(g, topic, start, end, n - 1);
    if row in p {
      m := EvolutionRowSource(g, topic, start, end, n - 1, row);
    } else {
      m := n - 1;
    }
  }

  lemma {:induction false} EvolutionRowsContain(g: Graph, topic: string, start: Option<int>, end: Option<int>,
                                                n: nat, m: nat, row: EvolutionRow)
    requires m < n <= |g.nodes| && OnTopic(g.nodes[m], topic, start, end) && row in RowsOfMemory(g, m)
    ensures row in EvolutionRowsUpTo(g, topic, start, end, n)
  {
    if m < n - 1 {
      EvolutionRowsContain(g, topic, start, end, n - 1, m, row);
    }
  }

  // ---------------------------------------------------------------------------
  // find_superseded_memories

  datatype Snapshot = Snapshot(id: string, text: string, date: Option<int>)

  datatype SupersededPair = SupersededPair(obsolete: Snapshot, current: Snapshot)

  /** `(current:Memory)-[:SUPERSEDES]->(old:Memory) WHERE old.user_id = $user_id` */
  predicate ObsoleteOf(g: Graph, userId: string, e: Edge) {
    && e.rel == SUPERSEDES && e.src < |g.nodes| && e.dst < |g.nodes|
    && g.nodes[e.src].Memory? && g.nodes[e.dst].Memory?
    && g.nodes[e.dst].userId == Some(userId)
  }

  function SnapshotOf(n: Node): Snapshot
    requires n.Memory?
  {
    Snapshot(n.id, n.text, n.created)
  }

  function PairOf(g: Graph, userId: string, e: Edge): SupersededPair
    requires ObsoleteOf(g, userId, e)
  {
    SupersededPair(SnapshotOf(g.nodes[e.dst]), SnapshotOf(g.nodes[e.src]))
  }

  /** One pair per matching edge, in edge order. */
  function PairsOf(g: Graph, userId: string, es: seq<Edge>): (r: seq<SupersededPair>)
    ensures |r| == CountWhere(es, e => ObsoleteOf(g, userId, e))
    ensures forall p :: p in r <==> exists k :: 0 <= k < |es| && ObsoleteOf(g, userId, es[k]) && PairOf(g, userId, es[k]) == p
  {
    if es == [] then []
    else
      var e := es[|es| - 1];
      var p := es[..|es| - 1];
      assert forall k :: 0 <= k < |p| ==> p[k] == es[k];
      PairsOf(g, userId, p) + (if ObsoleteOf(g, userId, e) then [PairOf(g, userId, e)] else [])
  }

  function UpdatedDate(p: SupersededPair): Option<int> {
    p.current.date
  }

  /** `find_superseded_memories(user_id)`: ordered by the replacement's `created`,
      newest first, with missing dates first. */
  function FindSupersededMemories(g: Graph, userId: string): (r: seq<SupersededPair>)
    ensures SortedBy(r, UpdatedDate, true)
    ensures |r| == CountWhere(g.edges, e => ObsoleteOf(g, userId, e))
    ensures forall p :: p in r ==> p.obsolete.id in MemoryIdsOf(g, userId)
  {
    var all := PairsOf(g, userId, g.edges);
    var r := SortBy(all, UpdatedDate, true);
    assert |r| == |multiset(r)| == |multiset(all)| == |all|;
    forall p | p in r ensures p.obsolete.id in MemoryIdsOf(g, userId) {
      SortByMembers(all, UpdatedDate, true, p);
    }
    r
  }

  /** The ids of the memories owned by `userId`. */
  function MemoryIdsOf(g: Graph, userId: string): (r: set<string>)
    ensures forall k :: 0 <= k < |g.nodes| && g.nodes[k].Memory? && g.nodes[k].userId == Some(userId) ==> g.nodes[k].id in r
  {
    set k | 0 <= k < |g.nodes| && g.nodes[k].Memory? && g.nodes[k].userId == Some(userId) :: g.nodes[k].id
  }

  /** Each pair reported comes from a SUPERSEDES edge into a memory of that user,
      and every such edge is reported. */
  lemma SupersededExact(g: Graph, userId: string, p: SupersededPair)
    ensures p in FindSupersededMemories(g, userId) <==>
      exists k :: 0 <= k < |g.edges| && ObsoleteOf(g, userId, g.edges[k]) && PairOf(g, userId, g.edges[k]) == p
  {
    SortByMembers(PairsOf(g, userId, g.edges), UpdatedDate, true, p);
  }
}
