/** Quality and health of a user's memory graph: the trust score of one memory
    (validations, citations and a recency term), topic communities, the overall
    health score and the rule-based recommendations of
    `analyze_memory_intelligence`. Scores are `real`; Python's float rounding of the
    reported values is not modelled. */
module Scoring {
  import opened Common
  import opened GraphStore
  import opened Traversal
  import opened Ordering

  // ---------------------------------------------------------------------------
  // Trust score

  const SECONDS_PER_DAY := 86400

  /** `(datetime.now() - created).days`, or 365 when `created` is missing. A
      timedelta's `days` is the floor of the elapsed time in days. */
  function AgeDays(created: Option<int>, now: int): (r: int)
    ensures created.None? ==> r == 365
    ensures created.Some? ==> r * SECONDS_PER_DAY <= now - created.value < (r + 1) * SECONDS_PER_DAY
  {
    if created.Some? then (now - created.value) / SECONDS_PER_DAY else 365
  }

  /** `max(0, 10 - age_days / 30)` with true division. */
  function Recency(ageDays: int): (r: real)
    ensures r >= 0.0
    ensures r == 0.0 <==> ageDays >= 300
    ensures ageDays >= 0 ==> r <= 10.0
  {
    var f := 10.0 - ageDays as real / 30.0;
    if f > 0.0 then f else 0.0
  }

  /** The recency term never grows as a memory ages. */
  lemma RecencyDecays(a: int, b: int)
    requires a <= b
    ensures Recency(b) <= Recency(a)
  {
  }

  /** `validations * 2 + citations + recency_factor` */
  function TrustScore(validations: nat, citations: nat, ageDays: int): (r: real)
    ensures r >= (2 * validations + citations) as real
  {
    (2 * validations + citations) as real + Recency(ageDays)
  }

  /** A memory created just now, with no validation and no citation, scores 10. */
  lemma FreshMemoryTrust()
    ensures TrustScore(0, 0, AgeDays(Some(0), 0)) == 10.0
  {
  }

  /** From 300 days on (and for a memory without `created`, taken as 365 days old)
      only validations and citations count. */
  lemma OldMemoryTrust(validations: nat, citations: nat, created: Option<int>, now: int)
    requires created.None? || now - created.value >= 300 * SECONDS_PER_DAY
    ensures TrustScore(validations, citations, AgeDays(created, now)) == (2 * validations + citations) as real
  {
  }

  /** One more confirmed validation adds exactly 2, one more citation exactly 1. */
  lemma TrustWeights(validations: nat, citations: nat, ageDays: int)
    ensures TrustScore(validations + 1, citations, ageDays) == TrustScore(validations, citations, ageDays) + 2.0
    ensures TrustScore(validations, citations + 1, ageDays) == TrustScore(validations, citations, ageDays) + 1.0
  {
  }

  /** `count(DISTINCT v)` over `(m)<-[:VALIDATES]-(v:Validation {result: 'confirmed'})` */
  function ConfirmedValidations(g: Graph, m: nat): set<nat> {
    set e | 0 <= e < |g.edges| && g.edges[e].rel == VALIDATES && g.edges[e].dst == m
              && g.edges[e].src < |g.nodes| && g.nodes[g.edges[e].src] == Validation("confirmed")
          :: g.edges[e].src
  }

  /** `count(DISTINCT other)` over `(other:Memory)-[:CITES]->(m)` */
  function Citers(g: Graph, m: nat): set<nat> {
    set e | 0 <= e < |g.edges| && g.edges[e].rel == CITES && g.edges[e].dst == m
              && g.edges[e].src < |g.nodes| && g.nodes[g.edges[e].src].Memory?
          :: g.edges[e].src
  }

  datatype TrustReport = TrustReport(memoryId: string, trustScore: real, validations: nat,
                                     citations: nat, recencyFactor: real, ageDays: int)

  /** `{"error": "Memory not found"}` or the score and its factors. */
  datatype TrustOutcome = Scored(report: TrustReport) | MemoryNotFound

  /** The read half of `calculate_trust_score(memory_id)`: the score it computes
      and returns. Writing it back is `MemoryIntelligence.CalculateTrustScore`. */
  function CalculateTrust(g: Graph, id: string, now: int): (r: TrustOutcome)
    ensures r.MemoryNotFound? <==> forall k :: 0 <= k < |g.nodes| ==> !IsMemoryWithId(id, g.nodes[k])
    ensures r.Scored? ==>
      && r.report.memoryId == id
      && r.report.trustScore == (2 * r.report.validations + r.report.citations) as real + r.report.recencyFactor
      && r.report.recencyFactor == Recency(r.report.ageDays)
      && r.report.ageDays == AgeDays(g.nodes[FindMemory(g, id).value].created, now)
      && r.report.validations == |ConfirmedValidations(g, FindMemory(g, id).value)|
      && r.report.citations == |Citers(g, FindMemory(g, id).value)|
  {
    match FindMemory(g, id)
    case None => MemoryNotFound
    case Some(m) =>
      var v := |ConfirmedValidations(g, m)|;
      var c := |Citers(g, m)|;
      var age := AgeDays(g.nodes[m].created, now);
      Scored(TrustReport(id, TrustScore(v, c, age), v, c, Recency(age), age))
  }

  // ---------------------------------------------------------------------------
  // Communities

  /** `(m:Memory {user_id: $user_id})` */
  predicate Owned(n: Node, userId: string) {
    n.Memory? && n.userId == Some(userId)
  }

  /** `(m)-[r:RELATES_TO|EXTENDS|RESPONDS_TO]-(other:Memory {user_id: $user_id})` */
  predicate PeerLink(g: Graph, userId: string, m: nat, e: Edge) {
    && (e.rel == RELATES_TO || e.rel == EXTENDS || e.rel == RESPONDS_TO)
    && Touches(e, m) && Across(e, m) < |g.nodes| && Owned(g.nodes[Across(e, m)], userId)
  }

  /** `count(r)` of the community query. */
  function Connections(g: Graph, userId: string, m: nat): nat {
    CountWhere(g.edges, e => PeerLink(g, userId, m, e))
  }

  datatype CommunityRow = CommunityRow(memoryId: string, text: string, topic: Option<string>, connections: nat)

  /** Owned by the user and linked to a peer: the memory has a community row. */
  predicate InCommunity(g: Graph, userId: string, m: nat) {
    m < |g.nodes| && Owned(g.nodes[m], userId) && Connections(g, userId, m) > 0
  }

  function CommunityRowOf(g: Graph, userId: string, m: nat): CommunityRow
    requires m < |g.nodes| && g.nodes[m].Memory?
  {
    CommunityRow(g.nodes[m].id, g.nodes[m].text, g.nodes[m].topic, Connections(g, userId, m))
  }

  /** One row per owned memory with at least one peer link, in node order. */
  function CommunityRowsUpTo(g: Graph, userId: string, n: nat): (r: seq<CommunityRow>)
    requires n <= |g.nodes|
    ensures forall k :: 0 <= k < |r| ==> r[k].connections > 0
    ensures forall m :: 0 <= m < n && InCommunity(g, userId, m) ==> CommunityRowOf(g, userId, m) in r
  {
    if n == 0 then []
    else
      var p := CommunityRowsUpTo(g, userId, n - 1);
      if InCommunity(g, userId, n - 1) then p + [CommunityRowOf(g, userId, n - 1)] else p
  }

  /** Every row is the row of a memory of the user with a peer link. */
  lemma {:induction false} CommunityRowSource(g: Graph, userId: string, n: nat, k: nat) returns (m: nat)
    requires n <= |g.nodes| && k < |CommunityRowsUpTo(g, userId, n)|
    ensures m < n && InCommunity(g, userId, m) && CommunityRowsUpTo(g, userId, n)[k] == CommunityRowOf(g, userId, m)
  {
    var p := CommunityRowsUpTo(g, userId, n - 1);
    if k < |p| {
      m := CommunityRowSource(g, userId, n - 1, k);
    } else {
      m := n - 1;
    }
  }

  /** No two rows are about the same memory id. */
  predicate DistinctIds(rows: seq<CommunityRow>) {
    forall i, j :: 0 <= i < j < |rows| ==> rows[i].memoryId != rows[j].memoryId
  }

  /** With one Memory node per id, no memory has two rows. */
  lemma {:induction false} CommunityRowsDistinct(g: Graph, userId: string, n: nat)
    requires n <= |g.nodes| && KeysUnique(g)
    ensures DistinctIds(CommunityRowsUpTo(g, userId, n))
    ensures NoDuplicates(CommunityRowsUpTo(g, userId, n))
  {
    if n > 0 {
      CommunityRowsDistinct(g, userId, n - 1);
      var p := CommunityRowsUpTo(g, userId, n - 1);
      if InCommunity(g, userId, n - 1) {
        forall k | 0 <= k < |p| ensures p[k].memoryId != g.nodes[n - 1].id {
          var m := CommunityRowSource(g, userId, n - 1, k);
          assert g.nodes[m].Memory? && g.nodes[n - 1].Memory?;
        }
        DistinctIdsSnoc(p, CommunityRowOf(g, userId, n - 1));
      }
    }
    DistinctIdsNoDuplicates(CommunityRowsUpTo(g, userId, n));
  }

  lemma DistinctIdsSnoc(rows: seq<CommunityRow>, row: CommunityRow)
    requires DistinctIds(rows) && forall k :: 0 <= k < |rows| ==> rows[k].memoryId != row.memoryId
    ensures DistinctIds(rows + [row])
  {
    var r := rows + [row];
    forall i, j | 0 <= i < j < |r| ensures r[i].memoryId != r[j].memoryId {
      assert r[i] == rows[i];
      if j < |rows| {
        assert r[j] == rows[j];
      }
    }
  }

  lemma DistinctIdsNoDuplicates(rows: seq<CommunityRow>)
    requires DistinctIds(rows)
    ensures NoDuplicates(rows)
  {
  }

  function CommunityKey(row: CommunityRow): Option<int> {
    Some(row.connections)
  }

  /** The rows of the community query, `ORDER BY connections DESC`. */
  function CommunityRows(g: Graph, userId: string): (r: seq<CommunityRow>)
    ensures SortedBy(r, CommunityKey, true)
    ensures multiset(r) == multiset(CommunityRowsUpTo(g, userId, |g.nodes|))
  {
    SortBy(CommunityRowsUpTo(g, userId, |g.nodes|), CommunityKey, true)
  }

  datatype Member = Member(memoryId: string, text: string, connections: nat)

  function MemberOf(row: CommunityRow): Member {
    Member(row.memoryId, row.text, row.connections)
  }

  /** `record["topic"] or "uncategorized"`: a missing or empty topic. */
  function TopicKey(topic: Option<string>): (k: string)
    ensures topic.Some? && topic.value != "" ==> k == topic.value
    ensures topic.None? || topic.value == "" ==> k == "uncategorized"
  {
    if topic.Some? && topic.value != "" then topic.value else "uncategorized"
  }

  /** The topics the rows fall into. */
  function TopicKeys(rows: seq<CommunityRow>): set<string> {
    if rows == [] then {} else TopicKeys(rows[..|rows| - 1]) + {TopicKey(rows[|rows| - 1].topic)}
  }

  lemma {:induction false} TopicKeysMembers(rows: seq<CommunityRow>, key: string)
    ensures key in TopicKeys(rows) <==> exists k :: 0 <= k < |rows| && TopicKey(rows[k].topic) == key
  {
    if rows != [] {
      var p := rows[..|rows| - 1];
      TopicKeysMembers(p, key);
      if exists k :: 0 <= k < |rows| && TopicKey(rows[k].topic) == key {
        var k :| 0 <= k < |rows| && TopicKey(rows[k].topic) == key;
        if k < |p| {
          assert p[k] == rows[k];
        }
      }
      if exists k :: 0 <= k < |p| && TopicKey(p[k].topic) == key {
        var k :| 0 <= k < |p| && TopicKey(p[k].topic) == key;
        assert rows[k] == p[k];
      }
    }
  }

  /** The members of one topic, in row order. */
  function InTopic(rows: seq<CommunityRow>, key: string): seq<Member> {
    if rows == [] then []
    else
      var p := rows[..|rows| - 1];
      var last := rows[|rows| - 1];
      InTopic(p, key) + (if TopicKey(last.topic) == key then [MemberOf(last)] else [])
  }

  /** A topic's list has one member per row of that topic, and is empty exactly
      when no row has that topic. */
  lemma {:induction false} InTopicCount(rows: seq<CommunityRow>, key: string)
    ensures |InTopic(rows, key)| == CountWhere(rows, (row: CommunityRow) => TopicKey(row.topic) == key)
    ensures InTopic(rows, key) == [] <==> key !in TopicKeys(rows)
  {
    if rows != [] {
      InTopicCount(rows[..|rows| - 1], key);
    }
  }

  lemma InTopicSnoc(rows: seq<CommunityRow>, row: CommunityRow, key: string)
    ensures InTopic(rows + [row], key) == InTopic(rows, key) + (if TopicKey(row.topic) == key then [MemberOf(row)] else [])
    ensures TopicKeys(rows + [row]) == TopicKeys(rows) + {TopicKey(row.topic)}
  {
    assert (rows + [row])[..|rows|] == rows;
  }

  /** The grouping loop of `detect_memory_communities`: a dictionary from topic to
      its members, filled row by row. */
  method GroupByTopic(rows: seq<CommunityRow>) returns (communities: map<string, seq<Member>>)
    ensures communities.Keys == TopicKeys(rows)
    ensures forall k :: k in communities ==> communities[k] == InTopic(rows, k)
  {
    communities := map[];
    var i := 0;
    while i < |rows|
      invariant 0 <= i <= |rows|
      invariant Grouped(communities, rows[..i])
    {
      var key := TopicKey(rows[i].topic);
      var members := if key in communities then communities[key] else [];
      GroupStep(communities, rows[..i], rows[i]);
      assert rows[..i + 1] == rows[..i] + [rows[i]];
      communities := communities[key := members + [MemberOf(rows[i])]];
      i := i + 1;
    }
    assert rows[..i] == rows;
  }

  /** The dictionary holds exactly the topics of `rows`, each with its members. */
  predicate Grouped(communities: map<string, seq<Member>>, rows: seq<CommunityRow>) {
    communities.Keys == TopicKeys(rows) && forall k :: k in communities ==> communities[k] == InTopic(rows, k)
  }

  /** One turn of the grouping loop keeps the dictionary equal to the grouping of
      the rows seen so far. */
  lemma GroupStep(communities: map<string, seq<Member>>, done: seq<CommunityRow>, row: CommunityRow)
    requires Grouped(communities, done)
    ensures var key := TopicKey(row.topic);
      Grouped(communities[key := (if key in communities then communities[key] else []) + [MemberOf(row)]], done + [row])
  {
    var key := TopicKey(row.topic);
    forall k ensures InTopic(done + [row], k) == InTopic(done, k) + (if key == k then [MemberOf(row)] else []) {
      InTopicSnoc(done, row, k);
    }
    InTopicSnoc(done, row, key);
    InTopicCount(done, key);
  }

  /** Every row lands in its own topic's list. */
  lemma {:induction false} GroupedOnce(rows: seq<CommunityRow>, j: nat, key: string)
    requires j < |rows|
    ensures MemberOf(rows[j]) in InTopic(rows, TopicKey(rows[j].topic))
  {
    var p := rows[..|rows| - 1];
    if j < |rows| - 1 {
      GroupedOnce(p, j, key);
      assert p[j] == rows[j];
    }
  }

  /** `detect_memory_communities(user_id)` */
  method DetectMemoryCommunities(g: Graph, userId: string) returns (communities: map<string, seq<Member>>)
    ensures communities.Keys == TopicKeys(CommunityRows(g, userId))
    ensures forall k :: k in communities ==> communities[k] == InTopic(CommunityRows(g, userId), k)
  {
    communities := GroupByTopic(CommunityRows(g, userId));
  }

  /** A memory belongs to some community exactly when it is owned by the user and
      has a peer link; its entry carries its connection count. */
  lemma CommunityMembers(g: Graph, userId: string, m: nat)
    requires InCommunity(g, userId, m)
    ensures MemberOf(CommunityRowOf(g, userId, m)) in InTopic(CommunityRows(g, userId), TopicKey(g.nodes[m].topic))
  {
    var row := CommunityRowOf(g, userId, m);
    var all := CommunityRowsUpTo(g, userId, |g.nodes|);
    SortByMembers(all, CommunityKey, true, row);
    var rows := CommunityRows(g, userId);
    var j :| 0 <= j < |rows| && rows[j] == row;
    GroupedOnce(rows, j, TopicKey(row.topic));
  }

  /** The converse: every entry of a topic's community is the entry of a memory
      of the user with a peer link, whose topic gives that key. */
  lemma CommunityEntrySource(g: Graph, userId: string, key: string, x: Member) returns (m: nat)
    requires x in InTopic(CommunityRows(g, userId), key)
    ensures InCommunity(g, userId, m) && TopicKey(g.nodes[m].topic) == key
    ensures x == MemberOf(CommunityRowOf(g, userId, m))
  {
    var rows := CommunityRows(g, userId);
    var k :| 0 <= k < |InTopic(rows, key)| && InTopic(rows, key)[k] == x;
    var j := InTopicSource(rows, key, k);
    var all := CommunityRowsUpTo(g, userId, |g.nodes|);
    SortByMembers(all, CommunityKey, true, rows[j]);
    var i :| 0 <= i < |all| && all[i] == rows[j];
    m := CommunityRowSource(g, userId, |g.nodes|, i);
  }

  /** Each entry of a topic's list comes from a row with that topic. */
  lemma {:induction false} InTopicSource(rows: seq<CommunityRow>, key: string, k: nat) returns (j: nat)
    requires k < |InTopic(rows, key)|
    ensures j < |rows| && TopicKey(rows[j].topic) == key && InTopic(rows, key)[k] == MemberOf(rows[j])
  {
    var p := rows[..|rows| - 1];
    if k < |InTopic(p, key)| {
      j := InTopicSource(p, key, k);
      assert rows[j] == p[j];
    } else {
      j := |rows| - 1;
    }
  }

  // ---------------------------------------------------------------------------
  // Health

  /** The owned memories among the first `n` nodes, in node order. */
  function OwnedMemories(g: Graph, userId: string, n: nat): (r: seq<nat>)
    requires n <= |g.nodes|
    ensures forall k :: 0 <= k < |r| ==> r[k] < n && Owned(g.nodes[r[k]], userId)
    ensures forall m: nat :: m < n && Owned(g.nodes[m], userId) ==> m in r
  {
    if n == 0 then []
    else OwnedMemories(g, userId, n - 1) + (if Owned(g.nodes[n - 1], userId) then [n - 1] else [])
  }

  /** `count(r)` over `(m)-[r]-()`: every relationship touching `m`. */
  function Degree(g: Graph, m: nat): nat {
    CountWhere(g.edges, e => Touches(e, m))
  }

  function TotalDegree(g: Graph, ms: seq<nat>): nat {
    if ms == [] then 0 else TotalDegree(g, ms[..|ms| - 1]) + Degree(g, ms[|ms| - 1])
  }

  /** `sum(CASE WHEN relationships = 0 THEN 1 ELSE 0 END)` */
  function IsolatedCount(g: Graph, ms: seq<nat>): (r: nat)
    ensures r <= |ms|
  {
    CountWhere(ms, m => Degree(g, m) == 0)
  }

  lemma {:induction false} AllIsolated(g: Graph, ms: seq<nat>)
    requires forall k :: 0 <= k < |ms| ==> Degree(g, ms[k]) == 0
    ensures IsolatedCount(g, ms) == |ms| && TotalDegree(g, ms) == 0
  {
    if ms != [] {
      var p := ms[..|ms| - 1];
      assert forall k :: 0 <= k < |p| ==> p[k] == ms[k];
      AllIsolated(g, p);
    }
  }

  lemma {:induction false} NoneIsolated(g: Graph, ms: seq<nat>)
    requires forall k :: 0 <= k < |ms| ==> Degree(g, ms[k]) >= 1
    ensures IsolatedCount(g, ms) == 0 && TotalDegree(g, ms) >= |ms|
  {
    if ms != [] {
      var p := ms[..|ms| - 1];
      assert forall k :: 0 <= k < |p| ==> p[k] == ms[k];
      NoneIsolated(g, p);
    }
  }

  /** The first statistics query: `count(m)`, `avg(relationships)` (null without
      memories) and the number of isolated memories. */
  datatype Stats = Stats(total: nat, avg: Option<real>, isolated: nat)

  function GraphStats(g: Graph, userId: string): (s: Stats)
    ensures s.isolated <= s.total
    ensures s.avg.None? <==> s.total == 0
  {
    var ms := OwnedMemories(g, userId, |g.nodes|);
    Stats(|ms|, if ms == [] then None else Some(TotalDegree(g, ms) as real / |ms| as real),
          IsolatedCount(g, ms))
  }

  /** `count(DISTINCT old)` over `(:Memory {user_id})-[:SUPERSEDES]->(old:Memory)` */
  function ObsoleteMemories(g: Graph, userId: string): set<nat> {
    set e | 0 <= e < |g.edges| && g.edges[e].rel == SUPERSEDES
              && g.edges[e].src < |g.nodes| && Owned(g.nodes[g.edges[e].src], userId)
              && g.edges[e].dst < |g.nodes| && g.nodes[g.edges[e].dst].Memory?
          :: g.edges[e].dst
  }

  /** The topics grouped by the conflict query: `m1.topic` for
      `(m1:Memory {user_id})-[:CONFLICTS_WITH]-(m2:Memory)`, either direction. */
  function ConflictTopics(g: Graph, userId: string): set<Option<string>> {
    (set e | 0 <= e < |g.edges| && g.edges[e].rel == CONFLICTS_WITH
               && g.edges[e].src < |g.nodes| && Owned(g.nodes[g.edges[e].src], userId)
               && g.edges[e].dst < |g.nodes| && g.nodes[g.edges[e].dst].Memory?
           :: g.nodes[g.edges[e].src].topic)
    + (set e | 0 <= e < |g.edges| && g.edges[e].rel == CONFLICTS_WITH
                 && g.edges[e].dst < |g.nodes| && Owned(g.nodes[g.edges[e].dst], userId)
                 && g.edges[e].src < |g.nodes| && g.nodes[g.edges[e].src].Memory?
             :: g.nodes[g.edges[e].dst].topic)
  }

  /** `len(conflicting_topics)`: one row per topic, `LIMIT 5`. */
  function ConflictCount(g: Graph, userId: string): (r: nat)
    ensures r <= 5
    ensures r == 0 <==> ConflictTopics(g, userId) == {}
  {
    var n := |ConflictTopics(g, userId)|;
    if n < 5 then n else 5
  }

  /** `max(0, min(10, connectivity - isolation_penalty - obsolete_penalty))` with
      `total = total_memories or 1`, `avg_connections or 0`, and no obsolete penalty
      when there is nothing obsolete. */
  function HealthScore(total: nat, avg: Option<real>, isolated: nat, obsolete: nat): (h: real)
    ensures 0.0 <= h <= 10.0
  {
    var t := if total == 0 then 1 else total;
    var connectivity := avg.GetOr(0.0) * 10.0;
    var isolation := isolated as real / t as real * 100.0;
    var staleness := if obsolete != 0 then obsolete as real / t as real * 50.0 else 0.0;
    var raw := connectivity - isolation - staleness;
    if raw < 0.0 then 0.0 else if raw > 10.0 then 10.0 else raw
  }

  /** An empty graph has health 0. */
  lemma EmptyGraphHealth()
    ensures HealthScore(0, None, 0, 0) == 0.0
  {
  }

  /** Every penalty only lowers the score. */
  lemma HealthPenalised(total: nat, avg: Option<real>, isolated: nat, obsolete: nat)
    ensures HealthScore(total, avg, isolated, obsolete) <= HealthScore(total, avg, 0, 0)
  {
  }

  lemma AllIsolatedScore(total: nat, obsolete: nat)
    requires total > 0
    ensures HealthScore(total, Some(0 as real / total as real), total, obsolete) == 0.0
  {
    var t := total as real;
    assert t / t == 1.0;
  }

  lemma WellConnectedScore(total: nat, degrees: nat)
    requires 0 < total <= degrees
    ensures HealthScore(total, Some(degrees as real / total as real), 0, 0) == 10.0
  {
    var t := total as real;
    var d := degrees as real;
    assert d / t >= 1.0;
  }

  /** When every memory of the user is isolated, the health is 0. */
  lemma IsolatedGraphHealth(g: Graph, userId: string, obsolete: nat)
    requires forall m :: 0 <= m < |g.nodes| && Owned(g.nodes[m], userId) ==> Degree(g, m) == 0
    requires OwnedMemories(g, userId, |g.nodes|) != []
    ensures var s := GraphStats(g, userId);
      HealthScore(s.total, s.avg, s.isolated, obsolete) == 0.0
  {
    var ms := OwnedMemories(g, userId, |g.nodes|);
    AllIsolated(g, ms);
    AllIsolatedScore(|ms|, obsolete);
  }

  /** When every memory of the user has a relationship and nothing is obsolete, the
      health is the full 10. */
  lemma ConnectedGraphHealth(g: Graph, userId: string)
    requires forall m :: 0 <= m < |g.nodes| && Owned(g.nodes[m], userId) ==> Degree(g, m) >= 1
    requires OwnedMemories(g, userId, |g.nodes|) != []
    ensures var s := GraphStats(g, userId);
      HealthScore(s.total, s.avg, s.isolated, 0) == 10.0
  {
    var ms := OwnedMemories(g, userId, |g.nodes|);
    NoneIsolated(g, ms);
    WellConnectedScore(|ms|, TotalDegree(g, ms));
  }

  // ---------------------------------------------------------------------------
  // Recommendations

  function LinkAdvice(isolated: nat): string {
    "Link " + NatToString(isolated) + " isolated memories to related knowledge for better context"
  }

  function ArchiveAdvice(obsolete: nat): string {
    "Archive or update " + NatToString(obsolete) + " obsolete memories"
  }

  function ResolveAdvice(conflicts: nat): string {
    "Resolve " + NatToString(conflicts) + " conflicting topics to maintain knowledge consistency"
  }

  const LOW_HEALTH_ADVICE := "Knowledge graph health is low" + " - consider adding more connections between related memories"

  const HEALTHY_ADVICE := "Memory graph is healthy!" + " Continue building interconnected knowledge"

  /** The position of a message in the fixed order of the rules (by its first
      word, which differs between the five messages). */
  function Rank(s: string): nat {
    if |s| == 0 then 5
    else if s[0] == 'L' then 0
    else if s[0] == 'A' then 1
    else if s[0] == 'R' then 2
    else if s[0] == 'K' then 3
    else 4
  }

  /** The list `_generate_recommendations` returns, rule by rule. */
  function Recommendations(isolated: nat, obsolete: nat, conflicts: nat, health: real): seq<string> {
    var r1: seq<string> := if isolated > 5 then [LinkAdvice(isolated)] else [];
    var r2 := if obsolete > 3 then r1 + [ArchiveAdvice(obsolete)] else r1;
    var r3 := if conflicts > 0 then r2 + [ResolveAdvice(conflicts)] else r2;
    var r4 := if health < 5.0 then r3 + [LOW_HEALTH_ADVICE] else r3;
    if r4 == [] then [HEALTHY_ADVICE] else r4
  }

  /** `_generate_recommendations(isolated, obsolete, conflicts, health_score)` */
  method GenerateRecommendations(isolated: nat, obsolete: nat, conflicts: nat, health: real)
    returns (r: seq<string>)
    ensures r == Recommendations(isolated, obsolete, conflicts, health)
  {
    r := [];
    if isolated > 5 {
      r := [LinkAdvice(isolated)];
    }
    if obsolete > 3 {
      r := r + [ArchiveAdvice(obsolete)];
    }
    if conflicts > 0 {
      r := r + [ResolveAdvice(conflicts)];
    }
    if health < 5.0 {
      r := r + [LOW_HEALTH_ADVICE];
    }
    if r == [] {
      r := [HEALTHY_ADVICE];
    }
  }

  lemma AdviceRanks(isolated: nat, obsolete: nat, conflicts: nat)
    ensures Rank(LinkAdvice(isolated)) == 0 && Rank(ArchiveAdvice(obsolete)) == 1
    ensures Rank(ResolveAdvice(conflicts)) == 2 && Rank(LOW_HEALTH_ADVICE) == 3 && Rank(HEALTHY_ADVICE) == 4
  {
    assert LOW_HEALTH_ADVICE[0] == 'K';
    assert HEALTHY_ADVICE[0] == 'M';
  }

  /** Every message of the list has the rank of a rule that fired, and is that
      rule's message. */
  lemma RecommendationsByRank(isolated: nat, obsolete: nat, conflicts: nat, health: real, x: string)
    requires x in Recommendations(isolated, obsolete, conflicts, health)
    ensures Rank(x) == 0 ==> isolated > 5 && x == LinkAdvice(isolated)
    ensures Rank(x) == 1 ==> obsolete > 3 && x == ArchiveAdvice(obsolete)
    ensures Rank(x) == 2 ==> conflicts > 0 && x == ResolveAdvice(conflicts)
    ensures Rank(x) == 3 ==> health < 5.0 && x == LOW_HEALTH_ADVICE
    ensures Rank(x) == 4 ==> x == HEALTHY_ADVICE && isolated <= 5 && obsolete <= 3 && conflicts == 0 && health >= 5.0
  {
    AdviceRanks(isolated, obsolete, conflicts);
  }

  /** Each rule's message appears exactly when its threshold is crossed, and the
      healthy message exactly when no rule fires. */
  lemma RecommendationRules(isolated: nat, obsolete: nat, conflicts: nat, health: real)
    ensures var r := Recommendations(isolated, obsolete, conflicts, health);
      && (LinkAdvice(isolated) in r <==> isolated > 5)
      && (ArchiveAdvice(obsolete) in r <==> obsolete > 3)
      && (ResolveAdvice(conflicts) in r <==> conflicts > 0)
      && (LOW_HEALTH_ADVICE in r <==> health < 5.0)
      && (HEALTHY_ADVICE in r <==> isolated <= 5 && obsolete <= 3 && conflicts == 0 && health >= 5.0)
  {
    var r := Recommendations(isolated, obsolete, conflicts, health);
    AdviceRanks(isolated, obsolete, conflicts);
    if LinkAdvice(isolated) in r { RecommendationsByRank(isolated, obsolete, conflicts, health, LinkAdvice(isolated)); }
    if ArchiveAdvice(obsolete) in r { RecommendationsByRank(isolated, obsolete, conflicts, health, ArchiveAdvice(obsolete)); }
    if ResolveAdvice(conflicts) in r { RecommendationsByRank(isolated, obsolete, conflicts, health, ResolveAdvice(conflicts)); }
    if LOW_HEALTH_ADVICE in r { RecommendationsByRank(isolated, obsolete, conflicts, health, LOW_HEALTH_ADVICE); }
    if HEALTHY_ADVICE in r { RecommendationsByRank(isolated, obsolete, conflicts, health, HEALTHY_ADVICE); }
  }

  /** The messages come in the fixed order of the rules; the healthy message comes
      alone; so there are between one and four of them. */
  lemma RecommendationShape(isolated: nat, obsolete: nat, conflicts: nat, health: real)
    ensures var r := Recommendations(isolated, obsolete, conflicts, health);
      && (HEALTHY_ADVICE in r ==> r == [HEALTHY_ADVICE])
      && 1 <= |r| <= 4
      && forall i, j :: 0 <= i < j < |r| ==> Rank(r[i]) < Rank(r[j])
  {
    AdviceRanks(isolated, obsolete, conflicts);
    StagesOrdered(isolated > 5, LinkAdvice(isolated), obsolete > 3, ArchiveAdvice(obsolete),
                  conflicts > 0, ResolveAdvice(conflicts), health < 5.0, LOW_HEALTH_ADVICE);
  }

  predicate RanksIncreasing(r: seq<string>) {
    forall i, j :: 0 <= i < j < |r| ==> Rank(r[i]) < Rank(r[j])
  }

  predicate RanksBelow(r: seq<string>, k: int) {
    forall i :: 0 <= i < |r| ==> Rank(r[i]) < k
  }

  /** Four rules appending messages of ranks 0 to 3, in that order, leave at most
      four messages of increasing rank, all below 4. */
  lemma StagesOrdered(c1: bool, m1: string, c2: bool, m2: string, c3: bool, m3: string, c4: bool, m4: string)
    requires Rank(m1) == 0 && Rank(m2) == 1 && Rank(m3) == 2 && Rank(m4) == 3
    ensures var r1: seq<string> := if c1 then [m1] else [];
      var r2 := if c2 then r1 + [m2] else r1;
      var r3 := if c3 then r2 + [m3] else r2;
      var r4 := if c4 then r3 + [m4] else r3;
      |r4| <= 4 && RanksIncreasing(r4) && RanksBelow(r4, 4)
  {
    var r1: seq<string> := if c1 then [m1] else [];
    var r2 := if c2 then r1 + [m2] else r1;
    var r3 := if c3 then r2 + [m3] else r2;
    if c2 { AppendRanked(r1, m2); }
    if c3 { AppendRanked(r2, m3); }
    if c4 { AppendRanked(r3, m4); }
  }

  /** A message ranked after everything before it keeps the ranks increasing. */
  lemma AppendRanked(r: seq<string>, x: string)
    requires RanksIncreasing(r) && RanksBelow(r, Rank(x))
    ensures RanksIncreasing(r + [x]) && RanksBelow(r + [x], Rank(x) + 1)
  {
  }

  // ---------------------------------------------------------------------------
  // The whole analysis

  datatype CentralRow = CentralRow(memoryId: string, text: string, connections: nat)

  function CentralKey(row: CentralRow): Option<int> {
    Some(row.connections)
  }

  /** A memory of the user with at least one relationship of any type. */
  predicate Central(g: Graph, userId: string, m: nat) {
    m < |g.nodes| && Owned(g.nodes[m], userId) && Degree(g, m) > 0
  }

  function CentralRowOf(g: Graph, m: nat): CentralRow
    requires m < |g.nodes| && g.nodes[m].Memory?
  {
    CentralRow(g.nodes[m].id, g.nodes[m].text, Degree(g, m))
  }

  /** Owned memories with at least one relationship, in node order. */
  function ConnectedRowsUpTo(g: Graph, userId: string, n: nat): (r: seq<CentralRow>)
    requires n <= |g.nodes|
    ensures forall row :: row in r ==> row.connections > 0
    ensures forall m :: 0 <= m < n && Central(g, userId, m) ==> CentralRowOf(g, m) in r
  {
    if n == 0 then []
    else
      var p := ConnectedRowsUpTo(g, userId, n - 1);
      if Central(g, userId, n - 1) then p + [CentralRowOf(g, n - 1)] else p
  }

  /** Every row is the row of a memory of the user with a relationship. */
  lemma {:induction false} ConnectedRowSource(g: Graph, userId: string, n: nat, k: nat) returns (m: nat)
    requires n <= |g.nodes| && k < |ConnectedRowsUpTo(g, userId, n)|
    ensures m < n && Central(g, userId, m) && ConnectedRowsUpTo(g, userId, n)[k] == CentralRowOf(g, m)
  {
    var p := ConnectedRowsUpTo(g, userId, n - 1);
    if k < |p| {
      m := ConnectedRowSource(g, userId, n - 1, k);
    } else {
      m := n - 1;
    }
  }

  /** No row that was cut off has more connections than a row that was kept. */
  predicate TopRanked(r: seq<CentralRow>, rest: multiset<CentralRow>) {
    forall row, k :: row in rest && 0 <= k < |r| ==> row.connections <= r[k].connections
  }

  /** `ORDER BY connections DESC LIMIT 10`: the ten most connected rows, or all of
      them when there are fewer. */
  function CentralMemories(g: Graph, userId: string): (r: seq<CentralRow>)
    ensures var all := ConnectedRowsUpTo(g, userId, |g.nodes|);
      && |r| == (if |all| <= 10 then |all| else 10)
      && multiset(r) <= multiset(all)
      && SortedBy(r, CentralKey, true)
      && TopRanked(r, multiset(all) - multiset(r))
  {
    var all := ConnectedRowsUpTo(g, userId, |g.nodes|);
    var sorted := SortBy(all, CentralKey, true);
    if |sorted| <= 10 then sorted
    else
      TopTen(sorted, all);
      sorted[..10]
  }

  /** The first ten rows of a descending sort of `all` are its top ten. */
  lemma TopTen(sorted: seq<CentralRow>, all: seq<CentralRow>)
    requires |sorted| > 10 && multiset(sorted) == multiset(all) && SortedBy(sorted, CentralKey, true)
    ensures multiset(sorted[..10]) <= multiset(all)
    ensures SortedBy(sorted[..10], CentralKey, true)
    ensures TopRanked(sorted[..10], multiset(all) - multiset(sorted[..10]))
  {
    CutOff(sorted, 10);
    PrefixOutranks(sorted, 10);
    assert multiset(all) - multiset(sorted[..10]) == multiset(sorted[10..]);
  }

  /** In a descending sort, every row of the prefix has at least the connections of
      every row after it. */
  lemma PrefixOutranks(sorted: seq<CentralRow>, n: nat)
    requires n <= |sorted| && SortedBy(sorted, CentralKey, true)
    ensures TopRanked(sorted[..n], multiset(sorted[n..]))
  {
    forall row, k | row in multiset(sorted[n..]) && 0 <= k < n
      ensures row.connections <= sorted[..n][k].connections
    {
      assert row in sorted[n..];
      var i :| 0 <= i < |sorted[n..]| && sorted[n..][i] == row;
      assert KeyLe(CentralKey(sorted[k]), CentralKey(sorted[n + i]), true);
    }
  }

  /** What a cut at `n` leaves out is exactly the rows from `n` on. */
  lemma CutOff(s: seq<CentralRow>, n: nat)
    requires n <= |s|
    ensures multiset(s[..n]) <= multiset(s)
    ensures multiset(s) - multiset(s[..n]) == multiset(s[n..])
  {
    assert s == s[..n] + s[n..];
  }

  datatype Summary = Summary(totalMemories: nat, avgConnections: real, isolatedMemories: nat,
                             obsoleteMemories: nat, healthScore: real)

  datatype Report = Report(summary: Summary, conflictingTopics: nat, clusters: map<string, nat>,
                           centralMemories: seq<CentralRow>, recommendations: seq<string>)

  /** `analyze_memory_intelligence(user_id)` */
  method AnalyzeMemoryIntelligence(g: Graph, userId: string) returns (r: Report)
    ensures var s := GraphStats(g, userId);
      && r.summary.totalMemories == s.total && r.summary.isolatedMemories == s.isolated
      && r.summary.avgConnections == s.avg.GetOr(0.0)
      && r.summary.obsoleteMemories == |ObsoleteMemories(g, userId)|
      && r.summary.healthScore == HealthScore(s.total, s.avg, s.isolated, |ObsoleteMemories(g, userId)|)
    ensures 0.0 <= r.summary.healthScore <= 10.0
    ensures r.conflictingTopics == ConflictCount(g, userId)
    ensures r.clusters.Keys == TopicKeys(CommunityRows(g, userId))
    ensures forall k :: k in r.clusters ==> r.clusters[k] == |InTopic(CommunityRows(g, userId), k)|
    ensures r.centralMemories == CentralMemories(g, userId)
    ensures r.recommendations == Recommendations(r.summary.isolatedMemories, r.summary.obsoleteMemories,
                                                 r.conflictingTopics, r.summary.healthScore)
  {
    var s := GraphStats(g, userId);
    var obsolete := |ObsoleteMemories(g, userId)|;
    var conflicts := ConflictCount(g, userId);
    var communities := DetectMemoryCommunities(g, userId);
    var clusters := map k | k in communities :: |communities[k]|;
    var health := HealthScore(s.total, s.avg, s.isolated, obsolete);
    var advice := GenerateRecommendations(s.isolated, obsolete, conflicts, health);
    r := Report(Summary(s.total, s.avg.GetOr(0.0), s.isolated, obsolete, health),
                conflicts, clusters, CentralMemories(g, userId), advice);
  }
}
