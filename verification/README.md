# mem0-server-mcp, modelled in Dafny

This project models the core of mem0-server-mcp, a memory service for coding
assistants. It has two servers:

- **The REST server (`mem0-server`)** stores memories in a vector store and mirrors
  them into a Neo4j property graph.
  - `MemoryIntelligence` links memories and components, threads conversations,
    records decisions and scores trust.
  - It also answers graph queries: related memories, shortest paths, topic
    evolution, superseded memories, impact analysis, decision rationale,
    communities and a health report.
  - Its endpoints guard the memory store (identifiers, ownership) and replicate
    every new memory into the graph with exponential back-off.
  - Its configuration chooses the LLM and embedding providers, the vector
    dimension and the HNSW index.
  - A wrapper cuts embeddings down to a target dimension.
- **The MCP server (`mcp-server`)** authenticates clients by token, with an
  audit log.
  - It splits long texts into overlapping chunks before they are stored.
  - It derives a per-project owner id from the working directory.

The Neo4j database is modelled as a value:

- `GraphStore.Graph` is an arena of typed nodes plus a sequence of labelled
  edges.
- Every Cypher query becomes a function of that value.
- `MERGE` is insert-if-absent.
- `ORDER BY` is a stable sort with Neo4j's null ordering.

The write side is the class `Intelligence.MemoryIntelligence`. Its `graph` field
is the database, and its methods change the field as their Cypher statements
do, with one exception: a metadata map is stored as if Neo4j accepted maps as
property values (see "## Left out"). `Auth.TokenAuthenticator` keeps the two authentication tables as
fields in the same way.

Some inputs are parameters rather than modelled behaviour: time (integer seconds),
the environment, path resolution, SHA-256, the vector store's answers and database
failures.

Modules (one file each):

- `Common`: shared helpers: `Option`, powers of two, `collect(DISTINCT)`
- `GraphStore`: graph data model, key lookups, `MERGE` of an edge
- `Traversal`: `get_related_memories`, `find_path`
- `Ordering`: Cypher `ORDER BY` with nulls
- `Temporal`: `get_memory_evolution`, `find_superseded_memories`
- `Dependency`: `get_impact_analysis`
- `Decisions`: the statements of `create_decision`, `get_decision_rationale`
- `Scoring`: trust score, communities, health analysis, recommendations
- `Intelligence`: class `MemoryIntelligence`: the write operations
- `Api`: retry schedule and the guards of the REST endpoints
- `Auth`: class `TokenAuthenticator`
- `TextChunker`: `chunk_text_semantic` and its helpers
- `TruncateEmbedder`: `TruncateEmbedder.embed`
- `ServerConfig`: the REST server's configuration functions
- `McpConfig`: `get_project_id`

## Model

| member | source | states |
|---|---|---|
| `GraphStore.FindMemory` | mem0-server/graph_intelligence.py:59-60 | `MATCH (m:Memory {id})` finds a Memory node with that id, and finds nothing exactly when no such node exists |
| `GraphStore.FindComponent` | mem0-server/graph_intelligence.py:315-316 | `MATCH (c:Component {name})` finds a Component with that name, and finds nothing exactly when none exists |
| `GraphStore.FindDecision` | mem0-server/graph_intelligence.py:474 | finds the first Decision with the id, and finds nothing exactly when none exists |
| `GraphStore.FindFrom` | mem0-server/graph_intelligence.py:59-60 | the search from an index returns the first node at or after it that carries the key, and nothing exactly when none does |
| `GraphStore.FindMemoryUnique` | mem0-server/graph_intelligence.py:59-60 | with unique memory ids, the lookup returns the one node carrying the id |
| `GraphStore.FindComponentUnique` | mem0-server/graph_intelligence.py:315-316 | with unique component names, the lookup returns the one node carrying the name |
| `GraphStore.CountEdges` | mem0-server/graph_intelligence.py:61 | the count of matching relationships is 0 exactly when none exists |
| `GraphStore.MergeEdge` | mem0-server/graph_intelligence.py:61-63 | `MERGE (a)-[r:L]->(b) SET ...` updates the properties of every matching edge and changes no other edge; it appends one new edge, with the SET applied, only when none matched |
| `GraphStore.CountEdgesSameShape` | mem0-server/graph_intelligence.py:61 | the count depends only on the endpoints and labels, not on the properties |
| `GraphStore.MergeEdgeCount` | mem0-server/graph_intelligence.py:61 | after a MERGE there is at least one matching edge, and never one more than before if one already existed |
| `GraphStore.MergeTwiceSingleEdge` | mem0-server/graph_intelligence.py:61 | MERGE is idempotent: merging the same link twice leaves exactly one such edge |
| `GraphStore.MergeEdgeKeeps` | mem0-server/graph_intelligence.py:61 | a MERGE never removes an existing relationship |
| `GraphStore.MergeEdgeCreates` | mem0-server/graph_intelligence.py:61 | after a MERGE the relationship exists |
| `GraphStore.MergeEdgeValid` | mem0-server/graph_intelligence.py:61 | a MERGE between existing nodes keeps the graph well formed (edges in range, keys unique) |
| `Traversal.WalkEnd` | mem0-server/graph_intelligence.py:98 | an undirected walk from an existing node ends at an existing node |
| `Traversal.WalkInRange` | mem0-server/graph_intelligence.py:98 | every edge of a walk exists |
| `Traversal.TrailStep` | mem0-server/graph_intelligence.py:98 | a trail extended by one edge is a trail exactly when the edge continues the walk, passes the type filter and is new |
| `Traversal.ExtensionsMembers` | mem0-server/graph_intelligence.py:98 | a path is among the one-edge extensions of a trail exactly when it adds one new edge, of an allowed type, that continues the walk |
| `Traversal.ExtendAllMembers` | mem0-server/graph_intelligence.py:98 | a path is among the extensions of a list of trails exactly when dropping its last edge gives one of them and that edge is new, allowed and continues the walk |
| `Traversal.TrailsOfLengthMembers` | mem0-server/graph_intelligence.py:98 | the paths enumerated for length d are exactly the trails of d edges from the start node over the allowed relationship types |
| `Traversal.Labels` | mem0-server/graph_intelligence.py:101 | `[type(rel) in relationships(path)]`: one label per edge, in order |
| `Traversal.RowsOfMembers` | mem0-server/graph_intelligence.py:99-102 | a row is produced exactly when some trail of the list ends at a Memory and reports that row |
| `Traversal.RowsAtShape` | mem0-server/graph_intelligence.py:101-102 | the rows at distance d have distance d and a path of d labels |
| `Traversal.LayerAppend` | mem0-server/graph_intelligence.py:103 | appending the rows of the next distance keeps the rows ordered by distance and distinct |
| `Traversal.Layers` | mem0-server/graph_intelligence.py:98-103 | one list of rows per distance 1..depth, the i-th holding the rows at distance i+1 |
| `Traversal.RowsUpToLayered` | mem0-server/graph_intelligence.py:98-103 | the rows for depths 1..depth carry paths as long as their distance, are ordered by distance and contain no duplicate |
| `Traversal.RowsUpToSound` | mem0-server/graph_intelligence.py:98-103 | every returned row is reported by some trail of 1..depth edges |
| `Traversal.RowsUpToComplete` | mem0-server/graph_intelligence.py:98-103 | every row reported by a trail of 1..depth edges is returned |
| `Traversal.RowsAtExact` | mem0-server/graph_intelligence.py:98-102 | a row is among those at distance d exactly when some trail of length d produces it |
| `Traversal.RowsUpToExact` | mem0-server/graph_intelligence.py:98-103 | a row is returned exactly when some trail of 1..depth edges produces it |
| `Traversal.FilteredRelatedMemories` | mem0-server/graph_intelligence.py:92-114 | with the type filter applied as intended: an unknown start id gives no rows; rows are `DISTINCT`, ordered by distance, each path as long as its distance |
| `Traversal.FilteredRelatedMemoriesExact` | mem0-server/graph_intelligence.py:92-114 | a row is returned exactly when an undirected trail of 1..depth edges over the allowed types leads from the start memory to a Memory with that id, text, label path and length |
| `Traversal.GetRelatedMemories` | mem0-server/graph_intelligence.py:85-114 | a TypeError exactly when the type list is non-empty (`'' \| ''.join(...)` applies `\|` to two strings); a Cypher syntax error exactly when the list is empty and the depth negative; otherwise the unfiltered rows, none for an unknown start id, `DISTINCT` and ordered by distance |
| `Traversal.RelatedMemoriesExact` | mem0-server/graph_intelligence.py:92-114 | rows come back exactly for an empty type list and a non-negative depth, and then a row is returned exactly when an undirected trail of 1..depth edges of any type leads from the start memory to a Memory with that id, text, label path and length |
| `Traversal.FilterRaisesTypeError` | mem0-server/graph_intelligence.py:93-94 | two memories joined by RELATES_TO, asked for with `["RELATES_TO"]`: the code raises a TypeError where the intended filter returns the neighbour |
| `Traversal.WalkLabelsAllowed` | mem0-server/graph_intelligence.py:93-98 | under the intended `[:A\|B]` filter, every edge of a walk carries an allowed label |
| `Traversal.RelatedMemoriesFiltered` | mem0-server/graph_intelligence.py:93-98 | with the intended type filter, every label in every returned path is one of the requested types |
| `Traversal.Expand` | mem0-server/graph_intelligence.py:121 | one breadth-first step only adds nodes |
| `Traversal.NeighboursMembers` | mem0-server/graph_intelligence.py:121 | a node is a neighbour of a set exactly when some edge joins it to a node of the set, in either direction |
| `Traversal.ExpandAcross` | mem0-server/graph_intelligence.py:121 | one breadth-first step crosses every edge that touches the set |
| `Traversal.NeighboursInNodes` | mem0-server/graph_intelligence.py:121 | in a well-formed graph every neighbour is a node |
| `Traversal.BallMonotone` | mem0-server/graph_intelligence.py:121 | the nodes within k steps grow with k |
| `Traversal.WalkInBall` | mem0-server/graph_intelligence.py:121 | the end of a walk of at most k edges is within k steps |
| `Traversal.EdgeBackExists` | mem0-server/graph_intelligence.py:121 | a node first reached at step k has an edge back to step k-1 |
| `Traversal.EdgeBack` | mem0-server/graph_intelligence.py:121 | picks that edge |
| `Traversal.AcrossBack` | mem0-server/graph_intelligence.py:121 | crossing an edge twice returns to the start |
| `Traversal.WalkExtend` | mem0-server/graph_intelligence.py:121 | a walk extended by a touching edge is a walk ending across that edge |
| `Traversal.WalkTo` | mem0-server/graph_intelligence.py:121 | every node within k steps is the end of a walk of at most k edges |
| `Traversal.BallInNodes` | mem0-server/graph_intelligence.py:121 | the reachable nodes are nodes of the graph |
| `Traversal.BallStaysStable` | mem0-server/graph_intelligence.py:121 | once a step adds nothing, no later step does |
| `Traversal.BallGrows` | mem0-server/graph_intelligence.py:121 | k steps that each add a node reach at least k+1 nodes |
| `Traversal.RepeatedLayer` | mem0-server/graph_intelligence.py:121 | when the steps stop adding nodes, some step among the first k adds nothing |
| `Traversal.BallSaturates` | mem0-server/graph_intelligence.py:121 | everything reachable is reached within as many steps as there are nodes |
| `Traversal.WalkToShortest` | mem0-server/graph_intelligence.py:120-122 | a node first reached at step k has no walk shorter than the one found |
| `Traversal.Search` | mem0-server/graph_intelligence.py:120-122 | a found walk reaches the target and is no longer than any walk to it |
| `Traversal.SearchFinds` | mem0-server/graph_intelligence.py:120-122 | a reachable target is found |
| `Traversal.PathNodes` | mem0-server/graph_intelligence.py:123 | `[node.id in nodes(path)]` has one more entry than the path has edges, from the start to the end |
| `Traversal.FindPath` | mem0-server/graph_intelligence.py:116-135 | a found path has length ≥ 1, one label per edge, one id per node, and starts and ends at the two requested memories |
| `Traversal.FindPathNotFound` | mem0-server/graph_intelligence.py:116-135 | `None` exactly when a memory is missing or the two are distinct and unconnected; a query error exactly when both ids name the same memory (`shortestPath` refuses equal endpoints) |
| `Traversal.FindPathShortest` | mem0-server/graph_intelligence.py:120-125 | the reported path is a real walk with the reported labels and no walk between the two memories is shorter |
| `Ordering.KeyLeTotal` | mem0-server/graph_intelligence.py:169 | `ORDER BY` with nulls (last ascending, first descending) compares any two keys |
| `Ordering.KeyLeTransitive` | mem0-server/graph_intelligence.py:169 | that order is transitive |
| `Ordering.InsertPos` | mem0-server/graph_intelligence.py:169 | the insertion point sits after every key that may precede the new row and before every other |
| `Ordering.Insert` | mem0-server/graph_intelligence.py:169 | inserting keeps the rows sorted and adds exactly the one row |
| `Ordering.SortBy` | mem0-server/graph_intelligence.py:169 | `ORDER BY` yields a sorted permutation of the rows |
| `Ordering.SortByMembers` | mem0-server/graph_intelligence.py:169 | sorting neither adds nor loses a row |
| `Temporal.SupersededEntry` | mem0-server/graph_intelligence.py:178-181 | the `superseded` entry is present exactly when the old memory's id is truthy, and then holds its id and text |
| `Temporal.SupersedeRows` | mem0-server/graph_intelligence.py:162-168 | one row per outgoing SUPERSEDES edge to a Memory, each carrying the memory's id and date |
| `Temporal.RowsOfMemory` | mem0-server/graph_intelligence.py:162 | `OPTIONAL MATCH` gives every matched memory at least one row |
| `Temporal.EvolutionRowsUpTo` | mem0-server/graph_intelligence.py:151-161 | every row is inside the date window, and every memory on the topic inside the window has a row |
| `Temporal.EvolutionRowSource` | mem0-server/graph_intelligence.py:158-161 | every row is about a memory of the topic inside the window |
| `Temporal.GetMemoryEvolution` | mem0-server/graph_intelligence.py:141-184 | the rows are those of the topic query, reordered by `created` ascending with nulls last |
| `Temporal.EvolutionCoversTopic` | mem0-server/graph_intelligence.py:151-161 | every memory of the topic within the window appears, and every row is about a memory of the topic within the window |
| `Temporal.EvolutionShowsSuperseded` | mem0-server/graph_intelligence.py:162-181 | every SUPERSEDES edge from a listed memory yields a row naming the superseded memory |
| `Temporal.EvolutionRowsContain` | mem0-server/graph_intelligence.py:160-168 | every row of a matched memory is in the result |
| `Temporal.PairsOf` | mem0-server/graph_intelligence.py:190-197 | one obsolete/current pair per SUPERSEDES edge whose old memory belongs to the user, and nothing else |
| `Temporal.FindSupersededMemories` | mem0-server/graph_intelligence.py:186-215 | pairs ordered by the replacement's `created`, newest first with nulls first; one per qualifying edge; every obsolete memory is the user's |
| `Temporal.MemoryIdsOf` | mem0-server/graph_intelligence.py:191 | contains the id of every memory of the user |
| `Temporal.SupersededExact` | mem0-server/graph_intelligence.py:190-197 | a pair is returned exactly when a qualifying SUPERSEDES edge produces it |
| `Dependency.Pre` | mem0-server/graph_intelligence.py:361 | one step against DEPENDS_ON only adds nodes |
| `Dependency.UpstreamMonotone` | mem0-server/graph_intelligence.py:361 | the nodes with a chain of at most k edges grow with k |
| `Dependency.SourcesSound` | mem0-server/graph_intelligence.py:361 | every node one step upstream has a DEPENDS_ON edge into the set |
| `Dependency.SourcesComplete` | mem0-server/graph_intelligence.py:361 | every source of a DEPENDS_ON edge into the set is one step upstream |
| `Dependency.ChainInUpstream` | mem0-server/graph_intelligence.py:361 | a DEPENDS_ON chain of length k puts its start within k steps |
| `Dependency.UpstreamHasChain` | mem0-server/graph_intelligence.py:361 | every node within k steps has a DEPENDS_ON chain to the component |
| `Dependency.UpstreamInNodes` | mem0-server/graph_intelligence.py:361 | the upstream nodes are nodes of the graph |
| `Dependency.UpstreamStaysStable` | mem0-server/graph_intelligence.py:361 | once a step adds nothing, no later step does |
| `Dependency.UpstreamGrows` | mem0-server/graph_intelligence.py:361 | k growing steps reach at least k+1 nodes |
| `Dependency.UpstreamSaturates` | mem0-server/graph_intelligence.py:361 | all upstream nodes are found within as many steps as there are nodes |
| `Dependency.DependentHasChain` | mem0-server/graph_intelligence.py:361-362 | every dependent name belongs to a component with a chain of one or more DEPENDS_ON edges into the component |
| `Dependency.ChainMakesDependent` | mem0-server/graph_intelligence.py:361-362 | every component with such a chain is listed as a dependent |
| `Dependency.DependentsExact` | mem0-server/graph_intelligence.py:361-362 | a name is a dependent exactly when a component of that name reaches the component through one or more DEPENDS_ON edges |
| `Dependency.GetImpactAnalysis` | mem0-server/graph_intelligence.py:354-387 | "Component not found" exactly when the component is missing or any of the dependents, affecting memories or cascade is empty; otherwise all three are non-empty and the score is the number of dependents plus the cascade size |
| `Dependency.CascadeThroughDependents` | mem0-server/graph_intelligence.py:368-375 | every cascade entry names a component that depends on the analysed one through a DEPENDS_ON chain |
| `Decisions.TargetsMembers` | mem0-server/graph_intelligence.py:475-484 | a text is collected exactly when some edge of the decision with that label reaches a wanted node carrying that text |
| `Decisions.TargetsAppend` | mem0-server/graph_intelligence.py:475-484 | collection distributes over a split of the edge list |
| `Decisions.TargetsNone` | mem0-server/graph_intelligence.py:475-484 | edges that leave other nodes or carry other labels contribute nothing |
| `Decisions.TargetsGrowNodes` | mem0-server/graph_intelligence.py:475-484 | adding nodes does not change what existing edges reach |
| `Decisions.Collected` | mem0-server/graph_intelligence.py:482-495 | `collect(DISTINCT ...)` then `if p`: no duplicates, and exactly the non-empty texts |
| `Decisions.GetDecisionRationale` | mem0-server/graph_intelligence.py:470-497 | "Decision not found" exactly when no Decision has the id; otherwise pros, cons and alternatives are duplicate-free and hold no empty text |
| `Decisions.OrEmpty` | mem0-server/graph_intelligence.py:428 | `x or []` |
| `Decisions.AltId` | mem0-server/graph_intelligence.py:460 | `alt_<stamp>_<first 10 characters>` has that length |
| `Decisions.DecisionNode` | mem0-server/graph_intelligence.py:407-425 | the new Decision carries the id, text, user and time; metadata is set exactly when supplied |
| `Decisions.WithArgumentsStep` | mem0-server/graph_intelligence.py:428-449 | one turn of the argument loop adds the next argument |
| `Decisions.DecisionsWithText` | mem0-server/graph_intelligence.py:455 | lists Decisions with the text, and is empty exactly when there is none |
| `Decisions.AddAlternative` | mem0-server/graph_intelligence.py:453-460 | keeps every node and edge; creates a Decision (`chosen = false`) only when no Decision has the text; adds at least one CHOSEN_OVER edge and only such edges |
| `Decisions.AddAlternatives` | mem0-server/graph_intelligence.py:452-460 | the alternatives loop only appends nodes and edges |
| `Decisions.AlternativesSound` | mem0-server/graph_intelligence.py:452-460 | every edge the loop adds goes from the decision to a Decision whose text is an alternative |
| `Decisions.AlternativesComplete` | mem0-server/graph_intelligence.py:452-460 | every alternative is reached by an added CHOSEN_OVER edge |
| `Decisions.CreatedDecisionFound` | mem0-server/graph_intelligence.py:403-425 | with a fresh id, the new decision is the Decision found by that id |
| `Decisions.CreatedNodes` | mem0-server/graph_intelligence.py:428-449 | the pro and con Argument nodes follow the decision, in order, with their order numbers |
| `Decisions.CreatedEdges` | mem0-server/graph_intelligence.py:428-460 | the added edges are the BASED_ON block, the CONSIDERED block, then CHOSEN_OVER edges only |
| `Decisions.BlockTargets` | mem0-server/graph_intelligence.py:475-476 | over that layout only the argument blocks contribute argument texts |
| `Decisions.ArgumentsFromBlocks` | mem0-server/graph_intelligence.py:475-483 | reading back over the layout yields exactly the pros (or the cons) |
| `Decisions.ArgumentsOfLayout` | mem0-server/graph_intelligence.py:475-483 | the same, for a graph of that shape |
| `Decisions.CreatedArgumentsOf` | mem0-server/graph_intelligence.py:428-483 | after `create_decision`, the argument texts read back are exactly the pros and the cons, in order |
| `Decisions.ArgumentsReach` | mem0-server/graph_intelligence.py:431-436 | one block of argument edges reaches exactly its texts |
| `Decisions.CreatedAlternatives` | mem0-server/graph_intelligence.py:452-477 | after `create_decision`, the alternatives read back are exactly the given alternatives |
| `Decisions.ChosenOverInAltBlock` | mem0-server/graph_intelligence.py:452-477 | every CHOSEN_OVER edge out of the new decision points to a Decision whose text is one of the alternatives |
| `Decisions.AlternativesFromCreate` | mem0-server/graph_intelligence.py:452-477 | every given alternative is read back |
| `Decisions.CreateThenRationale` | mem0-server/graph_intelligence.py:393-497 | the rationale of a just-created decision returns its text and time, the distinct non-empty pros and cons, and exactly the non-empty alternatives |
| `Decisions.AddAlternativeValid` | mem0-server/graph_intelligence.py:453-460 | adding an alternative keeps the graph well formed |
| `Decisions.AddAlternativesValid` | mem0-server/graph_intelligence.py:452-460 | so does the whole loop |
| `Decisions.WithArgumentsValid` | mem0-server/graph_intelligence.py:428-449 | adding arguments keeps the graph well formed |
| `Decisions.CreateDecisionValid` | mem0-server/graph_intelligence.py:393-460 | `create_decision` keeps the graph well formed |
| `Scoring.AgeDays` | mem0-server/graph_intelligence.py:559 | `.days` is the floor of the elapsed days; a missing date counts as 365 |
| `Scoring.Recency` | mem0-server/graph_intelligence.py:560 | `max(0, 10 - age/30)` is between 0 and 10 and reaches 0 exactly at 300 days |
| `Scoring.RecencyDecays` | mem0-server/graph_intelligence.py:560 | older memories never get a larger recency term |
| `Scoring.TrustScore` | mem0-server/graph_intelligence.py:562 | the score is at least `2 * validations + citations` |
| `Scoring.FreshMemoryTrust` | mem0-server/graph_intelligence.py:559-562 | a memory created now, with no support, scores 10 |
| `Scoring.OldMemoryTrust` | mem0-server/graph_intelligence.py:559-562 | from 300 days on, or without a date, only validations and citations count |
| `Scoring.TrustWeights` | mem0-server/graph_intelligence.py:562 | one more validation adds 2, one more citation adds 1 |
| `Scoring.CalculateTrust` | mem0-server/graph_intelligence.py:537-580 | "Memory not found" exactly when no memory has the id; otherwise the score is twice the distinct confirmed validations plus the distinct citing memories plus the recency of its age |
| `Scoring.CommunityRowsUpTo` | mem0-server/graph_intelligence.py:508-511 | only memories with connections are kept, and every such memory of the user is kept |
| `Scoring.CommunityRowSource` | mem0-server/graph_intelligence.py:508-511 | every row is the row of a memory of the user with a peer link |
| `Scoring.CommunityRowsDistinct` | mem0-server/graph_intelligence.py:508-513 | with one Memory node per id, no memory id has two rows |
| `Scoring.DistinctIdsSnoc` | mem0-server/graph_intelligence.py:508-513 | a row with a new id keeps the ids distinct |
| `Scoring.DistinctIdsNoDuplicates` | mem0-server/graph_intelligence.py:508-513 | distinct ids mean distinct rows |
| `Scoring.CommunityRows` | mem0-server/graph_intelligence.py:507-517 | the community rows ordered by connections, most first |
| `Scoring.TopicKey` | mem0-server/graph_intelligence.py:522 | `topic or "uncategorized"` |
| `Scoring.InTopicCount` | mem0-server/graph_intelligence.py:521-529 | a topic's list has one member per row of that topic, and is empty exactly when the topic does not occur |
| `Scoring.InTopicSnoc` | mem0-server/graph_intelligence.py:521-529 | one more row extends only its own topic's list |
| `Scoring.GroupByTopic` | mem0-server/graph_intelligence.py:520-531 | the grouping loop yields one key per topic, and each topic's rows in order |
| `Scoring.TopicKeysMembers` | mem0-server/graph_intelligence.py:522-526 | a key is a topic of the rows exactly when some row has it (`None` counted as "uncategorized") |
| `Scoring.GroupStep` | mem0-server/graph_intelligence.py:521-529 | one turn of the loop keeps the dictionary equal to the grouping of the rows seen so far |
| `Scoring.GroupedOnce` | mem0-server/graph_intelligence.py:521-529 | every row lands in its topic's list |
| `Scoring.DetectMemoryCommunities` | mem0-server/graph_intelligence.py:503-531 | the communities are the sorted rows grouped by topic |
| `Scoring.CommunityMembers` | mem0-server/graph_intelligence.py:508-529 | every connected memory of the user appears in its topic's community |
| `Scoring.CommunityEntrySource` | mem0-server/graph_intelligence.py:508-529 | every entry of a community is that of a connected memory of the user whose topic gives the key |
| `Scoring.InTopicSource` | mem0-server/graph_intelligence.py:521-529 | every entry of a topic's list comes from a row with that topic |
| `Scoring.OwnedMemories` | mem0-server/graph_intelligence.py:594 | exactly the user's memories |
| `Scoring.IsolatedCount` | mem0-server/graph_intelligence.py:599 | no more isolated memories than memories |
| `Scoring.AllIsolated` | mem0-server/graph_intelligence.py:595-599 | memories without relationships are all isolated, with no connections in total |
| `Scoring.NoneIsolated` | mem0-server/graph_intelligence.py:595-599 | memories that all have a relationship leave none isolated |
| `Scoring.GraphStats` | mem0-server/graph_intelligence.py:593-601 | isolated ≤ total, and the average is null exactly when the user has no memory |
| `Scoring.ConflictCount` | mem0-server/graph_intelligence.py:610-616 | at most 5 conflicting topics (`LIMIT 5`), and 0 exactly when there is no conflict |
| `Scoring.HealthScore` | mem0-server/graph_intelligence.py:634-639 | the health score is clamped to 0..10 |
| `Scoring.EmptyGraphHealth` | mem0-server/graph_intelligence.py:634-639 | a user without memories scores 0 |
| `Scoring.HealthPenalised` | mem0-server/graph_intelligence.py:636-639 | isolated and obsolete memories never raise the score |
| `Scoring.AllIsolatedScore` | mem0-server/graph_intelligence.py:634-639 | a graph with every memory isolated scores 0 |
| `Scoring.WellConnectedScore` | mem0-server/graph_intelligence.py:634-639 | an average of at least one connection and nothing isolated or obsolete scores 10 |
| `Scoring.IsolatedGraphHealth` | mem0-server/graph_intelligence.py:593-639 | a user whose memories have no relationship scores 0 |
| `Scoring.ConnectedGraphHealth` | mem0-server/graph_intelligence.py:593-639 | a user whose memories all have a relationship, with nothing obsolete, scores 10 |
| `Scoring.GenerateRecommendations` | mem0-server/graph_intelligence.py:662-687 | the loop yields the fired recommendations |
| `Scoring.AdviceRanks` | mem0-server/graph_intelligence.py:672-685 | the five messages are told apart by their rule |
| `Scoring.RecommendationsByRank` | mem0-server/graph_intelligence.py:672-685 | each message present is there because its rule fired, with its count |
| `Scoring.RecommendationRules` | mem0-server/graph_intelligence.py:672-685 | each message is present exactly when its condition holds; "healthy" exactly when none fired |
| `Scoring.RecommendationShape` | mem0-server/graph_intelligence.py:670-687 | 1 to 4 messages, in rule order, and "healthy" only alone |
| `Scoring.ConnectedRowsUpTo` | mem0-server/graph_intelligence.py:623-627 | only memories with connections are kept, and every memory of the user with a relationship is kept with its id, text and `count(r)` |
| `Scoring.ConnectedRowSource` | mem0-server/graph_intelligence.py:623-627 | every row is that of a memory of the user with at least one relationship |
| `Scoring.CentralMemories` | mem0-server/graph_intelligence.py:622-631 | ten rows, or all of them when fewer; taken from the connected memories of the user (as a sub-multiset); most connected first; no row left out has more connections than a row kept |
| `Scoring.TopTen` | mem0-server/graph_intelligence.py:628-629 | the first ten rows of a descending sort are its top ten |
| `Scoring.PrefixOutranks` | mem0-server/graph_intelligence.py:628-629 | in a descending sort, a prefix row has at least the connections of every later row |
| `Scoring.CutOff` | mem0-server/graph_intelligence.py:629 | `LIMIT` leaves out exactly the rows after the cut |
| `Scoring.AnalyzeMemoryIntelligence` | mem0-server/graph_intelligence.py:586-660 | the report's totals, average, isolated and obsolete counts, health in 0..10, conflict count, cluster sizes per topic, central memories and recommendations |
| `Intelligence.StampMetadata` | mem0-server/graph_intelligence.py:62-63 | `SET r.created` always; `r.metadata` only when metadata is supplied; nothing else changes |
| `Intelligence.Link` | mem0-server/graph_intelligence.py:61 | linking never changes the nodes |
| `Intelligence.LinkJoins` | mem0-server/graph_intelligence.py:61-63 | after linking, the relationship exists, exactly once if it did not before, and the graph stays well formed |
| `Intelligence.LinkTwice` | mem0-server/graph_intelligence.py:61 | linking the same pair twice leaves one relationship |
| `Intelligence.LinkKeeps` | mem0-server/graph_intelligence.py:61 | linking keeps every existing relationship |
| `Intelligence.MergeComponent` | mem0-server/graph_intelligence.py:283-297 | `MERGE (c:Component {name})`: a node is created only when none has the name; the type and time are set, the metadata only when supplied; other nodes are unchanged |
| `Intelligence.MergeComponentTwice` | mem0-server/graph_intelligence.py:285 | creating the same component twice adds at most one node |
| `Intelligence.SetTrust` | mem0-server/graph_intelligence.py:565-568 | `SET m.trust_score` changes that memory's score and nothing else |
| `Intelligence.TrustStable` | mem0-server/graph_intelligence.py:540-568 | writing the score back does not change the score computed next |
| `Intelligence.ThreadStep` | mem0-server/graph_intelligence.py:233-239 | a thread step never changes the nodes |
| `Intelligence.ThreadGraph` | mem0-server/graph_intelligence.py:232-239 | the loop never changes the nodes and keeps a well-formed graph well formed |
| `Intelligence.ThreadStepValid` | mem0-server/graph_intelligence.py:233-239 | one step keeps a well-formed graph well formed |
| `Intelligence.ThreadGraphNext` | mem0-server/graph_intelligence.py:232-239 | one more turn of the loop is one more step |
| `Intelligence.ThreadStepKeeps` | mem0-server/graph_intelligence.py:236 | a step keeps existing RESPONDS_TO edges |
| `Intelligence.ThreadGraphStepKeeps` | mem0-server/graph_intelligence.py:232-239 | the n-th turn of the loop keeps every RESPONDS_TO link the earlier turns made |
| `Intelligence.ThreadStepLinks` | mem0-server/graph_intelligence.py:234-236 | step i links memory i+1 to memory i when both exist |
| `Intelligence.ThreadKeeps` | mem0-server/graph_intelligence.py:232-239 | later steps keep the links of earlier ones |
| `Intelligence.ThreadLinksAt` | mem0-server/graph_intelligence.py:232-239 | after step i the pair (i+1, i) is linked |
| `Intelligence.ThreadLinksPairs` | mem0-server/graph_intelligence.py:232-239 | after the loop every consecutive pair of existing memories is linked, the later one responding to the earlier |
| `Intelligence.ThreadStepSetsProps` | mem0-server/graph_intelligence.py:236-239 | every edge step i merges carries `position = i` and the session id |
| `Intelligence.ThreadStepKeepsProps` | mem0-server/graph_intelligence.py:233-239 | a step joining another pair of memories leaves the properties of a pair's edges alone |
| `Intelligence.ThreadPropsLast` | mem0-server/graph_intelligence.py:232-239 | after the loop, every RESPONDS_TO edge between the memories of pair i carries `position = i` and the session id, when i is the last step naming that pair of ids |
| `Intelligence.ThreadPropsFrom` | mem0-server/graph_intelligence.py:232-239 | from step i on, until a later step names the same ids, the pair's edges keep `position = i` and the session id |
| `Intelligence.ThreadPropsSetAt` | mem0-server/graph_intelligence.py:236-239 | after step i the pair's edges carry `position = i` and the session id |
| `Intelligence.ThreadPropsKeptAt` | mem0-server/graph_intelligence.py:233-239 | a turn of the loop on another pair of memories keeps a pair's edge properties |
| `Intelligence.ThreadPropsOtherPair` | mem0-server/graph_intelligence.py:233-239 | a turn of the loop on another pair of ids keeps a pair's edge properties |
| `Intelligence.OtherIdsOtherNodes` | mem0-server/graph_intelligence.py:234-235 | different ids never find the same memory node |
| `Intelligence.SameNodesSameMemories` | mem0-server/graph_intelligence.py:234-235 | memory lookups depend on the nodes only |
| `Intelligence.MemoryIntelligence.constructor` | mem0-server/graph_intelligence.py:23-26 | starts from the given database |
| `Intelligence.MemoryIntelligence.LinkMemories` | mem0-server/graph_intelligence.py:38-83 | a relationship type that is not a Cypher name is a query error with the graph unchanged (it is pasted into the statement, :61/:70, and fails before any MATCH); otherwise "Memories not found" (graph unchanged) exactly when either memory is missing; otherwise the MERGE with its SET, and the echo of the request |
| `Intelligence.MemoryIntelligence.CreateComponent` | mem0-server/graph_intelligence.py:275-304 | the component MERGE, echoing name, type and metadata |
| `Intelligence.MemoryIntelligence.LinkComponentDependency` | mem0-server/graph_intelligence.py:306-329 | a dependency type that is not a Cypher name is a query error with the graph unchanged (the f-string at :317); otherwise "Components not found" (graph unchanged) exactly when either is missing; otherwise the labelled MERGE |
| `Intelligence.DefaultTypesAreNames` | mem0-server/main.py:142 | the defaults "RELATES_TO" and "DEPENDS_ON" (also main.py:611) are Cypher names; "" and "depends on" are not |
| `Intelligence.MemoryIntelligence.LinkMemoryToComponent` | mem0-server/graph_intelligence.py:331-352 | "Memory or component not found" (graph unchanged) exactly when either is missing; otherwise the AFFECTS MERGE |
| `Intelligence.MemoryIntelligence.CreateConversationThread` | mem0-server/graph_intelligence.py:221-245 | fewer than 2 memories is an error with the graph unchanged; otherwise the thread loop's graph and the echo of the request |
| `Intelligence.MemoryIntelligence.LinkPairs` | mem0-server/graph_intelligence.py:232-239 | the loop leaves the graph of all its thread steps (one fewer than there are memories), one RESPONDS_TO link per consecutive pair |
| `Intelligence.MemoryIntelligence.AddArguments` | mem0-server/graph_intelligence.py:428-449 | the argument loop adds exactly the argument nodes and edges |
| `Intelligence.MemoryIntelligence.LinkAlternatives` | mem0-server/graph_intelligence.py:452-460 | the alternatives loop |
| `Intelligence.MemoryIntelligence.CreateDecision` | mem0-server/graph_intelligence.py:393-468 | the decision, its arguments and alternatives are added and the graph stays well formed; the echo uses `or []` |
| `Intelligence.MemoryIntelligence.CalculateTrustScore` | mem0-server/graph_intelligence.py:537-580 | returns the trust report and writes the score to the memory; a missing memory leaves the graph unchanged |
| `Api.Budget` | mem0-server/main.py:86-87 | `None` takes the configured number of attempts |
| `Api.Waits` | mem0-server/main.py:102-108 | one wait per retried attempt |
| `Api.WaitsAt` | mem0-server/main.py:102 | the k-th wait is `2 ** k` seconds |
| `Api.WaitsSum` | mem0-server/main.py:102-108 | m waits total `2 ** m - 1` seconds |
| `Api.TotalWait` | mem0-server/main.py:83 | the time actually slept by n failed attempts is the sum of the n-1 waits |
| `Api.LoggedTotalWaitOverstates` | mem0-server/main.py:110-114 | the exhaustion log reports `2 ** n - 1`, `2 ** (n-1)` more than was slept (127 s against 63 s for 7 attempts) |
| `Api.SyncWithRetry` | mem0-server/main.py:64-114 | (`Reports`) attempts stop at the first success; synced exactly when some attempt within the budget succeeds; waits of `1, 2, 4, ...` between attempts and none after the last; the log appears exactly after exhaustion and reports `2 ** n - 1` while `2 ** (n-1) - 1` was slept |
| `Api.SyncedReports` | mem0-server/main.py:89-99 | a run that stops at the first successful attempt is described by `Reports` |
| `Api.ExhaustedReports` | mem0-server/main.py:100-114 | a run in which every attempt of the budget failed is described by `Reports`, with `2 ** (n-1) - 1` seconds slept |
| `Api.NonNone` | mem0-server/main.py:188-191 | keeps exactly the fields that are not `None`, with their values |
| `Api.AddParamsKeys` | mem0-server/main.py:188-191 | a field other than `messages` is forwarded exactly when it is not `None`, an empty string included |
| `Api.AddParamsValues` | mem0-server/main.py:188-191 | `user_id`, `agent_id` and `run_id` are forwarded as their text and `metadata` as its map whenever they are given, and no other key is forwarded |
| `Api.AddParamsExact` | mem0-server/main.py:188-191 | the forwarded params are exactly the non-`None` fields other than `messages`, and `user_id`, `agent_id`, `run_id` and `metadata` keep their values |
| `Api.Owner` | mem0-server/main.py:205 | `user_id or agent_id or run_id`: the first truthy identifier, else `run_id` |
| `Api.AddMemory` | mem0-server/main.py:174-216 | 400 exactly when no identifier is truthy; otherwise the filtered params, and one sync task per stored result carrying its id, its text (or "") and the owner |
| `Api.SyncOwnerIsFirstIdentifier` | mem0-server/main.py:182-205 | after the guard, the sync owner is truthy, is one of the identifiers, and is `user_id` when that is truthy |
| `Api.IdentifierParams` | mem0-server/main.py:237-243 | exactly the non-`None` identifiers are forwarded |
| `Api.GetAllMemories` | mem0-server/main.py:223-244 | 400 exactly when no identifier is truthy; otherwise `get_all` with the non-`None` identifiers |
| `Api.DeleteAllMemories` | mem0-server/main.py:441-463 | 400 exactly when no identifier is truthy; otherwise `delete_all` with the non-`None` identifiers |
| `Api.IdentifierGuardsAgree` | mem0-server/main.py:230-233 | listing and deleting all memories refuse the same requests as adding does |
| `Api.Guard` | mem0-server/main.py:254-268 | the store call goes through exactly when `user_id` is not truthy or equals the stored owner; a truthy `user_id` on a memory `Memory.get` does not find (it returns None) is a 500 with the AttributeError text; a truthy `user_id` that differs from an existing memory's owner is the 403 |
| `Api.GetMemory` | mem0-server/main.py:250-268 | succeeds exactly when no truthy `user_id` is given or it matches the owner; otherwise 500 for an unknown memory and 403 for a foreign one; on success `get` |
| `Api.UpdateMemory` | mem0-server/main.py:377-395 | succeeds exactly when no truthy `user_id` is given or it matches the owner; otherwise 500 for an unknown memory and 403 for a foreign one; on success `update` |
| `Api.MemoryHistory` | mem0-server/main.py:398-416 | succeeds exactly when no truthy `user_id` is given or it matches the owner; otherwise 500 for an unknown memory and 403 for a foreign one; on success `history` |
| `Api.DeleteMemory` | mem0-server/main.py:419-438 | succeeds exactly when no truthy `user_id` is given or it matches the owner; otherwise 500 for an unknown memory and 403 for a foreign one; on success `delete` |
| `Api.OwnershipUniform` | mem0-server/main.py:250-438 | the four single-memory endpoints accept the same requests and fail the others identically: the same 500 for an unknown memory, the same 403 message for a foreign one |
| `Api.FindMemoryPath` | mem0-server/main.py:548-560 | 404 exactly when no path is found, the path when one is found, 500 on a query error |
| `Api.PathNotFoundExact` | mem0-server/main.py:548-555 | 404 exactly when a memory is missing or the two are distinct and unconnected |
| `Auth.Check` | mcp-server/auth.py:74-141 | granted exactly when the token exists, is enabled, has not expired and belongs to the user; a refusal is logged as denied or expired |
| `Auth.Outcome` | mcp-server/auth.py:59-152 | granted exactly when no database error occurs and the checks pass; a failing lookup gives the system error, logged as `error` |
| `Auth.CheckOrder` | mcp-server/auth.py:74-119 | the checks run in order: unknown token, disabled, expired, user mismatch, each with its own message |
| `Auth.TokensAfter` | mcp-server/auth.py:121-126 | only a successful validation stamps `last_used_at`, on that token only |
| `Auth.Stats` | mcp-server/auth.py:198-221 | the total is the number of the user's tokens; `active` is the number of those enabled, and null exactly when the user has none (`SUM` over no row); the logins are the user's `login` audit rows of the last 30 days |
| `Auth.SubsetCardStrings` | mcp-server/auth.py:201-202 | enabled tokens are no more than all tokens |
| `Auth.CountWhereSnoc` | mcp-server/auth.py:208-213 | one more audit row adds one login at most |
| `Auth.TokenAuthenticator.constructor` | mcp-server/auth.py:24-32 | starts from the given tables |
| `Auth.TokenAuthenticator.LogAuthAttempt` | mcp-server/auth.py:154-186 | appends the entry, or nothing when the insert fails; tokens unchanged |
| `Auth.TokenAuthenticator.ValidateToken` | mcp-server/auth.py:34-152 | returns the outcome, appends exactly one audit entry (unless its insert fails) and stamps `last_used_at` only on success |
| `Auth.TokenAuthenticator.Decide` | mcp-server/auth.py:62-152 | the verdict follows the checks in order: a failed lookup is a system error, then unknown, disabled, expired and mismatched tokens are refused, a failed timestamp update is a system error, and otherwise access is granted |
| `Auth.TokenAuthenticator.GetUserStats` | mcp-server/auth.py:188-222 | over the current `tokens` and `audit` fields: the user's token count, enabled count (null with no token) and 30-day login count |
| `Auth.StatsAfterValidation` | mcp-server/auth.py:34-222 | a validation changes no token count and adds one recent login exactly when it succeeds |
| `TextChunker.LStrip` | mcp-server/text_chunker.py:59 | a suffix starting with a non-space, empty exactly for blank strings |
| `TextChunker.RStrip` | mcp-server/text_chunker.py:59 | a prefix ending with a non-space, empty exactly for blank strings |
| `TextChunker.Strip` | mcp-server/text_chunker.py:59 | `strip()` gives a stripped string, empty exactly for blank input |
| `TextChunker.StripFixes` | mcp-server/text_chunker.py:59 | stripping is idempotent |
| `TextChunker.PyTail` | mcp-server/text_chunker.py:70 | `s[-n:]` is the last n characters, and the whole string for n = 0 |
| `TextChunker.DropWhile` | mcp-server/text_chunker.py:53 | drops a maximal run from the front |
| `TextChunker.SplitParagraphs` | mcp-server/text_chunker.py:53 | `re.split` gives at least one piece |
| `TextChunker.SplitParagraphsBlank` | mcp-server/text_chunker.py:53-61 | a blank text splits into blank pieces |
| `TextChunker.SplitParagraphsNoBreak` | mcp-server/text_chunker.py:53 | no piece contains a paragraph break |
| `TextChunker.SplitSentencesFrom` | mcp-server/text_chunker.py:84 | at least one piece |
| `TextChunker.SentencesEndWithStop` | mcp-server/text_chunker.py:84 | every piece but the last ends with `.`, `!` or `?` |
| `TextChunker.SplitSentences` | mcp-server/text_chunker.py:84 | at least one piece |
| `TextChunker.PrefixTrans` | mcp-server/text_chunker.py:66 | emitted chunks are never taken back, across several steps |
| `TextChunker.PlaceParagraph` | mcp-server/text_chunker.py:63-79 | the paragraph ends the current chunk; a chunk is emitted, stripped, exactly when the paragraph does not fit and the current chunk is non-empty |
| `TextChunker.PlaceSentence` | mcp-server/text_chunker.py:87-96 | the sentence ends the current chunk; a chunk is emitted exactly when the sentence does not fit and the chunk is non-empty |
| `TextChunker.PackSentences` | mcp-server/text_chunker.py:85-98 | the sentence loop only appends stripped chunks |
| `TextChunker.OversizedExact` | mcp-server/text_chunker.py:82 | `len > max * 1.5` is `2 * len > 3 * max` |
| `TextChunker.ParagraphStep` | mcp-server/text_chunker.py:58-98 | a blank paragraph is skipped; a step only appends stripped chunks |
| `TextChunker.PackParagraphs` | mcp-server/text_chunker.py:58-98 | every emitted chunk is stripped |
| `TextChunker.ParagraphTurn` | mcp-server/text_chunker.py:58-98 | one turn of the paragraph loop is one `ParagraphStep` of the packing state |
| `TextChunker.PackParagraphsLoop` | mcp-server/text_chunker.py:55-98 | the paragraph loop computes `PackParagraphs` |
| `TextChunker.Finish` | mcp-server/text_chunker.py:100-102 | the last chunk is added, stripped, exactly when it is not blank |
| `TextChunker.Annotated` | mcp-server/text_chunker.py:104-116 | one result per chunk |
| `TextChunker.BlankTextHasNoChunks` | mcp-server/text_chunker.py:41-118 | a blank text over the limit gives no chunk at all |
| `TextChunker.BlankParagraphsPackNothing` | mcp-server/text_chunker.py:58-61 | blank paragraphs leave the state empty |
| `TextChunker.OverlapCarried` | mcp-server/text_chunker.py:64-71 | when the paragraph does not fit and the chunk is longer than a positive overlap, the chunk is emitted stripped and the next one is its last `overlap` characters, a blank line and the paragraph |
| `TextChunker.ShortChunkNotCarried` | mcp-server/text_chunker.py:64-73 | when the paragraph does not fit and the chunk is no longer than the overlap, the chunk is emitted stripped and the next one is the paragraph alone |
| `TextChunker.ZeroOverlapRepeatsChunk` | mcp-server/text_chunker.py:69-71 | with `overlap_size = 0`, `s[-0:]` is the whole chunk, so the next chunk repeats it in full, while `has_overlap` says false |
| `TextChunker.Setting` | mcp-server/text_chunker.py:35-38 | a given value wins, then the environment, then the default |
| `TextChunker.ResplitSentences` | mcp-server/text_chunker.py:84-98 | the sentence loop computes the re-split and only appends chunks |
| `TextChunker.Annotate` | mcp-server/text_chunker.py:105-116 | every result has its text, index, total, size, `is_chunked` iff more than one, and `has_overlap` iff not first and overlap > 0 |
| `TextChunker.ChunkTextSemantic` | mcp-server/text_chunker.py:13-118 | the result is `ChunkText` under the settings chosen from argument, environment and default; a text within the limit is its single unchunked chunk |
| `TextChunker.ChunkTextMetadata` | mcp-server/text_chunker.py:104-116 | over the limit, chunk i has index i, the total count, its own length as size, `is_chunked` iff more than one chunk, `has_overlap` iff not first and overlap > 0, and stripped text |
| `TextChunker.AddChunkMarkers` | mcp-server/text_chunker.py:121-135 | an unchunked text is unchanged; a chunked one is `[Part i+1/n]`, a blank line and the text |
| `TextChunker.ChunkMarkerNumbers` | mcp-server/text_chunker.py:134-135 | the header reads back: its two digit runs denote the one-based chunk number and the chunk count, and the text follows the blank line |
| `TextChunker.HeaderLayout` | mcp-server/text_chunker.py:134-135 | where the number runs, the slash and the closing bracket sit in the marked text |
| `Common.NatToStringValue` | mcp-server/text_chunker.py:134 | the decimal text of a number reads back as that number, as Python's formatting of an int does |
| `TextChunker.EstimateTokens` | mcp-server/text_chunker.py:138-150 | `len // 4` |
| `TextChunker.ShouldChunkAgrees` | mcp-server/text_chunker.py:41-48 | a text not longer than the threshold comes back as its single unchunked chunk, and adding markers leaves it unchanged; a longer text never does: each of its chunks carries `has_overlap` |
| `TextChunker.AnnotatedSaysOverlap` | mcp-server/text_chunker.py:115 | every chunk built over the limit carries a `has_overlap` flag |
| `TruncateEmbedder.Prefix` | mem0-server/truncate_embedder.py:51 | `v[:n]` is a prefix, of length n when 0 ≤ n ≤ len |
| `TruncateEmbedder.Truncate` | mem0-server/truncate_embedder.py:49-54 | a longer vector is cut to its first `target_dims` entries; a shorter one is returned unchanged |
| `TruncateEmbedder.TruncateLength` | mem0-server/truncate_embedder.py:50-54 | the result has `min(len, target_dims)` entries and is a prefix |
| `TruncateEmbedder.TruncateIdempotent` | mem0-server/truncate_embedder.py:50-64 | cutting twice equals cutting once |
| `TruncateEmbedder.EmbedOf` | mem0-server/truncate_embedder.py:44-71 | an empty list fails on `embeddings[0]`; anything not a list passes through |
| `TruncateEmbedder.EmbedIdempotent` | mem0-server/truncate_embedder.py:48-69 | applying `embed` to its own result returns it unchanged, for a positive target |
| `TruncateEmbedder.Embed` | mem0-server/truncate_embedder.py:34-71 | the batch loop keeps the length and cuts each vector longer than the target |
| `ServerConfig.LlmConfigOf` | mem0-server/config.py:47-75 | "openai" and "anthropic" select themselves, every other provider ollama; temperature 0.2; API key for the hosted ones, base URL for ollama |
| `ServerConfig.EmbedderConfigOf` | mem0-server/config.py:78-99 | openai only for "openai"; every other provider, anthropic included, embeds with ollama, with that provider's model and dimension |
| `ServerConfig.VectorStoreConfigOf` | mem0-server/config.py:102-125 | the OpenAI dimension for "openai", otherwise ollama's; HNSW exactly when the dimension is at most 2000; the PostgreSQL settings |
| `ServerConfig.Mem0ConfigOf` | mem0-server/config.py:128-144 | version "v1.1", a neo4j graph store, the history path; embedder and vector store always agree on the dimension and HNSW follows it |
| `ServerConfig.DefaultIndexing` | mem0-server/config.py:24-36 | the defaults (ollama, 4096 dimensions) disable HNSW; "openai" with its default 1536 enables it |
| `McpConfig.HexByte` | mcp-server/config.py:66 | two lower-case hex digits per byte |
| `McpConfig.HexDigest` | mcp-server/config.py:66 | `hexdigest()` has two characters per byte |
| `McpConfig.HexDigestIsHex` | mcp-server/config.py:66 | and all are hex digits |
| `McpConfig.HexDigestAppend` | mcp-server/config.py:66 | the rendering of concatenated bytes is the concatenation of the renderings |
| `McpConfig.HexDigestPrefix` | mcp-server/config.py:66 | `hexdigest()[:8]` renders the first four digest bytes |
| `McpConfig.Basename` | mcp-server/config.py:65 | `Path.name` is the part after the last '/', and contains no '/' |
| `McpConfig.Take` | mcp-server/config.py:66 | `s[:n]` is a prefix of length `min(n, len)` |
| `McpConfig.AutoId` | mcp-server/config.py:68 | the derived id starts with `project_` |
| `McpConfig.AutoIdShape` | mcp-server/config.py:64-68 | `project_` + directory name + `_` + 8 hex characters of the first four digest bytes |
| `McpConfig.ParseAutoId` | mcp-server/config.py:68 | splitting a derived id puts it back together |
| `McpConfig.AutoIdParses` | mcp-server/config.py:64-68 | a derived id yields back the directory name and the hash, even when the name contains underscores |
| `McpConfig.ProjectId` | mcp-server/config.py:40-74 | "global" and "manual" give the default id; any other mode derives the id from `PROJECT_DIR` (else the working directory); a failure falls back to the default |
| `McpConfig.ProjectDirWins` | mcp-server/config.py:61 | once `PROJECT_DIR` is set, the working directory does not matter |
| `McpConfig.AutoModeShape` | mcp-server/config.py:58-74 | in auto mode the id is the default or `project_<name>_<8 hex digits>` |

## Left out

- Neo4j drivers and sessions, connection pools, logging, FastAPI wiring, the MCP server's tool functions and the token command-line script: I/O only.
- The vector store behind the REST endpoints (`add`, `get_all`, `get`, `update`, `history`, `delete`, `search`): what it returns is a parameter, and an exception it raises (a 500) is not modelled. The one answer the endpoints inspect, `get`'s, enters `Api.Guard` as `Api.Stored`, with `None` for an unknown id; without a user id the store call for an unknown id is made and its outcome belongs to the store.
- `sync_memory_to_neo4j`, `enrich_search_results_with_graph`, the search endpoints, `/configure`, `/reset` and `/health`: sync_memory_to_neo4j is not part of this model; the others only forward to the vector store.
- `get_conversation_thread`: its variable-length path query is not modelled; threads are only created.
- `get_user_stats` `last_activity` (`MAX(last_used_at)`): only the counts are modelled.
- Python float rounding of reported scores (`round(..., 2)`, `round(..., 1)`): scores are exact reals.
- The order of rows that Cypher leaves unspecified (collect order, equal sort keys, order of matched edges): the model fixes one order (node and edge order, stable sort).
- `Scoring.GroupByTopic`, `Scoring.DetectMemoryCommunities`: the communities are a `map`, so the order of topics is not modelled; the Python dict (mem0-server/graph_intelligence.py:525-531) lists topics in the order of their first row, which the JSON answer keeps.
- An undirected pattern matches a self-loop once in the model; Neo4j's exact multiplicity is not modelled.
- The per-topic counts of the conflict query: only how many topics are reported enters the recommendations, so only that count is modelled.
- `Intelligence.StampMetadata`: a supplied metadata dict is stored as the relationship's `metadata` property, as if Neo4j accepted a map as a property value; it accepts only primitives and arrays, so the real `SET r.metadata = $metadata` (mem0-server/graph_intelligence.py:62-63) fails.
- `Intelligence.MergeComponent`: a supplied metadata dict is stored as if Neo4j accepted maps; the real `SET c.metadata = $metadata` (mem0-server/graph_intelligence.py:286-288) fails and nothing is written.
- `Intelligence.MemoryIntelligence.LinkMemories`, `Intelligence.MemoryIntelligence.LinkComponentDependency`: `Intelligence.CypherName` accepts only ASCII letters, digits and underscores, the first not a digit; every other string is modelled as a query error, which the endpoints (mem0-server/main.py:524-526, :620-622) answer with 500. Cypher also parses Unicode letters, backtick-quoted names and strings that splice in further clauses; those are not modelled.
- `Intelligence.MemoryIntelligence.LinkMemories`: with truthy metadata the model reports the link and stores the map; the real statement fails, and the endpoint (mem0-server/main.py:522) answers 500 with the graph unchanged.
- `Intelligence.MemoryIntelligence.CreateComponent`: with truthy metadata the model creates or updates the component; the real statement fails, and the endpoint (mem0-server/main.py:600) answers 500 with the graph unchanged.
- `Decisions.DecisionNode`: the new Decision carries a supplied metadata map as if Neo4j accepted maps; the real `CREATE` (mem0-server/graph_intelligence.py:409-415) fails.
- `Intelligence.MemoryIntelligence.CreateDecision`: with truthy metadata the model writes the decision, its arguments and alternatives; the real first `CREATE` fails, nothing is written, and the endpoint (mem0-server/main.py:658) answers 500.
- `Intelligence.MemoryIntelligence.CreateDecision`: requires that the timestamp-derived id is not already used; the clock is not modelled, so freshness is assumed for the new decision.
- `TruncateEmbedder.EmbedIdempotent`: requires a positive target; with `target_dims = 0` the first call returns `[]` and a second call fails on `embeddings[0]`.
- `TruncateEmbedder.TruncateIdempotent`: requires a non-negative target; for a negative target Python's `v[:n]` keeps cutting from the end.
- `__getattr__` forwarding of the embedder and the base embedder itself: foreign calls.
- Reading and `int()`-parsing of environment variables: the settings arrive already parsed; a malformed number raising at import is not modelled.
- `McpConfig.ProjectId`: SHA-256, `Path.resolve()` and `str.encode()` are parameters; an encoding failure counts as a failed resolution.
- `Temporal.GetMemoryEvolution`: the date window is compared on integer timestamps, whereas the query compares the stored `created` value with the ISO-8601 text of the bound (mem0-server/graph_intelligence.py:151-156), so only timestamps that order the same way as their ISO text are modelled; the REST endpoint (mem0-server/main.py:563-570) never passes a window, so there both bounds are absent and the window is unbounded.
- Unicode details of `str.isspace` beyond the listed white-space characters, and the regular-expression engine beyond the two split patterns used.

## Findings

| source | as written | input that shows it | evidently intended | confidence | as-written member | corrected member |
|---|---|---|---|---|---|---|
| mem0-server/main.py:110-114 | after the last failed attempt, the log reports a total wait of `sum(2**i for i in range(max_retries))`, i.e. `2 ** n - 1` seconds | `max_retries = 7`, every attempt failing: the log says ~127 s, but only the six waits 1+2+4+8+16+32 = 63 s were slept (line 83 of the same file says ~63 s) | report the time actually slept, `2 ** (n-1) - 1` | not executed | `Api.LoggedTotalWaitOverstates` | `Api.TotalWait` |
| mem0-server/graph_intelligence.py:93-94 | the filter text is the empty string bitwise-or'ed with the joined type names, which raises a TypeError for every non-empty type list before any query is sent | `relationship_types = ["RELATES_TO"]` (what the endpoint builds from `relationship_types=RELATES_TO`) on two memories joined by RELATES_TO: TypeError, answered with 500 | a colon followed by the type names joined with a vertical bar, restricting the traversal to those types | not executed | `Traversal.FilterRaisesTypeError` | `Traversal.RelatedMemoriesFiltered` |
