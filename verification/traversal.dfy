/** Read-only traversals of the memory graph: `get_related_memories` (every
    undirected path of 1..depth edges, reported row by row; the restriction to some
    relationship types is modelled as intended, while the code as written raises
    before it is applied) and `find_path` (a shortest undirected path over all
    relationship types). Both are functions of the graph value.

    A path is a sequence of edge indices walked without regard to direction. Cypher
    never uses one relationship twice inside a single match, so the paths of
    `get_related_memories` are trails (no repeated edge). */
module Traversal {
  import opened Common
  import opened GraphStore

  predicate Touches(e: Edge, at: nat) {
    e.src == at || e.dst == at
  }

  /** The node reached from `at` by walking `e` in whichever direction fits. */
  function Across(e: Edge, at: nat): nat {
    if e.src == at then e.dst else e.src
  }

  predicate InRange(g: Graph, t: seq<nat>) {
    forall k :: 0 <= k < |t| ==> t[k] < |g.edges|
  }

  /** The node a walk from `start` along the edges `t` ends at. */
  function WalkEnd(g: Graph, start: nat, t: seq<nat>): (r: nat)
    requires InRange(g, t)
    ensures EdgesInRange(g) && start < |g.nodes| ==> r < |g.nodes|
  {
    if t == [] then start else Across(g.edges[t[|t| - 1]], WalkEnd(g, start, t[..|t| - 1]))
  }

  /** The `[:A|B]` filter the type list is meant to build; an empty list means no
      filter (`if relationship_types:`). */
  predicate Allowed(types: seq<string>, rel: string) {
    types == [] || rel in types
  }

  /** Edge `e` can follow the walk `t`. */
  predicate CanExtend(g: Graph, start: nat, t: seq<nat>, types: seq<string>, e: nat) {
    InRange(g, t) && e < |g.edges| && Touches(g.edges[e], WalkEnd(g, start, t)) && Allowed(types, g.edges[e].rel)
  }

  /** An undirected walk from `start` over edges that pass the filter. */
  predicate IsWalk(g: Graph, start: nat, t: seq<nat>, types: seq<string>)
    decreases |t|
  {
    t == [] || (IsWalk(g, start, t[..|t| - 1], types) && CanExtend(g, start, t[..|t| - 1], types, t[|t| - 1]))
  }

  /** A walk that never uses the same relationship twice. */
  predicate IsTrail(g: Graph, start: nat, t: seq<nat>, types: seq<string>) {
    IsWalk(g, start, t, types) && NoDuplicates(t)
  }

  lemma {:induction false} WalkInRange(g: Graph, start: nat, t: seq<nat>, types: seq<string>)
    requires IsWalk(g, start, t, types)
    ensures InRange(g, t)
  {
    if t != [] {
      WalkInRange(g, start, t[..|t| - 1], types);
    }
  }

  lemma TrailStep(g: Graph, start: nat, t: seq<nat>, types: seq<string>, e: nat)
    ensures IsTrail(g, start, t + [e], types) <==> IsTrail(g, start, t, types) && CanExtend(g, start, t, types, e) && e !in t
  {
    assert (t + [e])[..|t|] == t;
  }

  // ---------------------------------------------------------------------------
  // Enumerating the trails of a given length

  /** `t + [e]` for every edge `e >= from` that can extend `t` without reuse. */
  function Extensions(g: Graph, start: nat, t: seq<nat>, types: seq<string>, from: nat): seq<seq<nat>>
    decreases |g.edges| - from
  {
    if from >= |g.edges| then []
    else
      var rest := Extensions(g, start, t, types, from + 1);
      if from !in t && CanExtend(g, start, t, types, from) then [t + [from]] + rest else rest
  }

  lemma {:induction false} ExtensionsMembers(g: Graph, start: nat, t: seq<nat>, types: seq<string>, from: nat, u: seq<nat>)
    decreases |g.edges| - from
    ensures u in Extensions(g, start, t, types, from) <==>
      |u| == |t| + 1 && u[..|t|] == t && from <= u[|t|] && u[|t|] !in t && CanExtend(g, start, t, types, u[|t|])
  {
    if from < |g.edges| {
      ExtensionsMembers(g, start, t, types, from + 1, u);
      if |u| == |t| + 1 && u[..|t|] == t && u[|t|] == from {
        assert u == t + [from];
      }
    }
  }

  function ExtendAll(g: Graph, start: nat, ts: seq<seq<nat>>, types: seq<string>): seq<seq<nat>> {
    if ts == [] then [] else Extensions(g, start, ts[0], types, 0) + ExtendAll(g, start, ts[1..], types)
  }

  lemma {:induction false} ExtendAllMembers(g: Graph, start: nat, ts: seq<seq<nat>>, types: seq<string>, u: seq<nat>)
    ensures u in ExtendAll(g, start, ts, types) <==>
      |u| >= 1 && u[..|u| - 1] in ts && u[|u| - 1] !in u[..|u| - 1] && CanExtend(g, start, u[..|u| - 1], types, u[|u| - 1])
  {
    if ts != [] {
      ExtendAllMembers(g, start, ts[1..], types, u);
      ExtensionsMembers(g, start, ts[0], types, 0, u);
      if |u| >= 1 {
        assert u[..|u| - 1] in ts <==> u[..|u| - 1] == ts[0] || u[..|u| - 1] in ts[1..];
        if u[..|u| - 1] == ts[0] {
          assert |u| == |ts[0]| + 1;
        }
      }
    }
  }

  /** All trails of exactly `d` edges from `start`, in a fixed order. */
  function TrailsOfLength(g: Graph, start: nat, d: nat, types: seq<string>): seq<seq<nat>> {
    if d == 0 then [[]] else ExtendAll(g, start, TrailsOfLength(g, start, d - 1, types), types)
  }

  lemma {:induction false} TrailsOfLengthMembers(g: Graph, start: nat, d: nat, types: seq<string>, u: seq<nat>)
    ensures u in TrailsOfLength(g, start, d, types) <==> |u| == d && IsTrail(g, start, u, types)
  {
    if d > 0 {
      ExtendAllMembers(g, start, TrailsOfLength(g, start, d - 1, types), types, u);
      if |u| >= 1 {
        TrailsOfLengthMembers(g, start, d - 1, types, u[..|u| - 1]);
        TrailStep(g, start, u[..|u| - 1], types, u[|u| - 1]);
        assert u[..|u| - 1] + [u[|u| - 1]] == u;
      }
    }
  }

  // ---------------------------------------------------------------------------
  // get_related_memories

  datatype RelatedRow = RelatedRow(memoryId: string, text: string, relationshipPath: seq<string>, distance: nat)

  /** `[type(rel) for rel in relationships(path)]` */
  function Labels(g: Graph, t: seq<nat>): (r: seq<string>)
    requires InRange(g, t)
    ensures |r| == |t|
    ensures forall k :: 0 <= k < |t| ==> r[k] == g.edges[t[k]].rel
  {
    seq(|t|, k requires 0 <= k < |t| => g.edges[t[k]].rel)
  }

  predicate EndsAtMemory(g: Graph, start: nat, t: seq<nat>) {
    InRange(g, t) && WalkEnd(g, start, t) < |g.nodes| && g.nodes[WalkEnd(g, start, t)].Memory?
  }

  function RowOf(g: Graph, start: nat, t: seq<nat>): RelatedRow
    requires EndsAtMemory(g, start, t)
  {
    var m := g.nodes[WalkEnd(g, start, t)];
    RelatedRow(m.id, m.text, Labels(g, t), |t|)
  }

  /** One row per trail that ends at a Memory node. */
  function RowsOf(g: Graph, start: nat, ts: seq<seq<nat>>): seq<RelatedRow> {
    if ts == [] then []
    else
      (if EndsAtMemory(g, start, ts[0]) then [RowOf(g, start, ts[0])] else []) + RowsOf(g, start, ts[1..])
  }

  lemma {:induction false} RowsOfMembers(g: Graph, start: nat, ts: seq<seq<nat>>, row: RelatedRow)
    ensures row in RowsOf(g, start, ts) <==> exists t :: t in ts && EndsAtMemory(g, start, t) && RowOf(g, start, t) == row
  {
    if ts != [] {
      RowsOfMembers(g, start, ts[1..], row);
      assert forall t :: t in ts <==> t == ts[0] || t in ts[1..];
    }
  }

  /** The distinct rows at exactly `d` hops. */
  function RowsAt(g: Graph, start: nat, d: nat, types: seq<string>): seq<RelatedRow> {
    Distinct(RowsOf(g, start, TrailsOfLength(g, start, d, types)))
  }

  /** Rows carry paths as long as their distance, at 1..depth, nearest first,
      without repetition. */
  predicate Layered(r: seq<RelatedRow>, depth: nat) {
    && NoDuplicates(r)
    && (forall i :: 0 <= i < |r| ==> 1 <= r[i].distance <= depth && |r[i].relationshipPath| == r[i].distance)
    && (forall i, j :: 0 <= i < j < |r| ==> r[i].distance <= r[j].distance)
  }

  lemma RowsAtShape(g: Graph, start: nat, d: nat, types: seq<string>)
    ensures var here := RowsAt(g, start, d, types);
      forall i :: 0 <= i < |here| ==> here[i].distance == d && |here[i].relationshipPath| == d
  {
    var here := RowsAt(g, start, d, types);
    var ts := TrailsOfLength(g, start, d, types);
    forall i | 0 <= i < |here| ensures here[i].distance == d && |here[i].relationshipPath| == d {
      assert here[i] in RowsOf(g, start, ts);
      RowsOfMembers(g, start, ts, here[i]);
      var t :| t in ts && EndsAtMemory(g, start, t) && RowOf(g, start, t) == here[i];
      TrailsOfLengthMembers(g, start, d, types, t);
    }
  }

  lemma LayerAppend(prev: seq<RelatedRow>, here: seq<RelatedRow>, d: nat)
    requires d >= 1 && Layered(prev, d - 1) && NoDuplicates(here)
    requires forall i :: 0 <= i < |here| ==> here[i].distance == d && |here[i].relationshipPath| == d
    ensures Layered(prev + here, d)
  {
    var r := prev + here;
    forall i, j | 0 <= i < j < |r| ensures r[i] != r[j] && r[i].distance <= r[j].distance {
      if j >= |prev| { assert r[j] == here[j - |prev|]; }
      if i >= |prev| { assert r[i] == here[i - |prev|]; }
    }
    forall i | 0 <= i < |r| ensures 1 <= r[i].distance <= d && |r[i].relationshipPath| == r[i].distance {
      if i >= |prev| { assert r[i] == here[i - |prev|]; }
    }
  }

  /** The layers one after the other. */
  function Flatten<T>(ls: seq<seq<T>>): seq<T> {
    if ls == [] then [] else Flatten(ls[..|ls| - 1]) + ls[|ls| - 1]
  }

  lemma {:induction false} FlattenMembers<T>(ls: seq<seq<T>>, x: T)
    ensures x in Flatten(ls) <==> exists i :: 0 <= i < |ls| && x in ls[i]
  {
    if ls != [] {
      var init := ls[..|ls| - 1];
      FlattenMembers(init, x);
      if exists i :: 0 <= i < |ls| && x in ls[i] {
        var i :| 0 <= i < |ls| && x in ls[i];
        if i < |ls| - 1 {
          assert x in init[i];
        }
      }
      if exists i :: 0 <= i < |init| && x in init[i] {
        var i :| 0 <= i < |init| && x in init[i];
        assert x in ls[i];
      }
    }
  }

  /** The rows at distance 1, 2, ..., depth. */
  function Layers(g: Graph, start: nat, depth: nat, types: seq<string>): (ls: seq<seq<RelatedRow>>)
    ensures |ls| == depth
    ensures forall i :: 0 <= i < depth ==> ls[i] == RowsAt(g, start, i + 1, types)
  {
    seq(depth, i requires 0 <= i < depth => RowsAt(g, start, i + 1, types))
  }

  /** The rows at 1..depth hops, nearest first. */
  function RowsUpTo(g: Graph, start: nat, depth: nat, types: seq<string>): seq<RelatedRow> {
    Flatten(Layers(g, start, depth, types))
  }

  lemma {:induction false} RowsUpToLayered(g: Graph, start: nat, depth: nat, types: seq<string>)
    ensures Layered(RowsUpTo(g, start, depth, types), depth)
  {
    if depth > 0 {
      var ls := Layers(g, start, depth, types);
      assert ls[..depth - 1] == Layers(g, start, depth - 1, types);
      RowsUpToLayered(g, start, depth - 1, types);
      RowsAtShape(g, start, depth, types);
      LayerAppend(RowsUpTo(g, start, depth - 1, types), RowsAt(g, start, depth, types), depth);
    }
  }

  /** `row` is what the trail `t` from `start` reports. */
  predicate RowFrom(g: Graph, start: nat, types: seq<string>, t: seq<nat>, row: RelatedRow) {
    IsTrail(g, start, t, types) && EndsAtMemory(g, start, t) && RowOf(g, start, t) == row
  }

  /** Some trail from `start` of `lo` to `hi` edges reports `row`. */
  ghost predicate ReportedWithin(g: Graph, start: nat, types: seq<string>, row: RelatedRow, lo: nat, hi: nat) {
    exists t :: lo <= |t| <= hi && RowFrom(g, start, types, t, row)
  }

  lemma RowsAtExact(g: Graph, start: nat, d: nat, types: seq<string>, row: RelatedRow)
    ensures row in RowsAt(g, start, d, types) <==> ReportedWithin(g, start, types, row, d, d)
  {
    var here := RowsAt(g, start, d, types);
    var ts := TrailsOfLength(g, start, d, types);
    var all := RowsOf(g, start, ts);
    RowsOfMembers(g, start, ts, row);
    if row in here {
      var t :| t in ts && EndsAtMemory(g, start, t) && RowOf(g, start, t) == row;
      TrailsOfLengthMembers(g, start, d, types, t);
      assert d <= |t| <= d && RowFrom(g, start, types, t, row);
    }
    if ReportedWithin(g, start, types, row, d, d) {
      var t :| d <= |t| <= d && RowFrom(g, start, types, t, row);
      TrailsOfLengthMembers(g, start, d, types, t);
      assert t in ts && EndsAtMemory(g, start, t) && RowOf(g, start, t) == row;
    }
  }

  lemma RowsUpToExact(g: Graph, start: nat, depth: nat, types: seq<string>, row: RelatedRow)
    ensures row in RowsUpTo(g, start, depth, types) <==> ReportedWithin(g, start, types, row, 1, depth)
  {
    if row in RowsUpTo(g, start, depth, types) {
      RowsUpToSound(g, start, depth, types, row);
    }
    if ReportedWithin(g, start, types, row, 1, depth) {
      var t :| 1 <= |t| <= depth && RowFrom(g, start, types, t, row);
      RowsUpToComplete(g, start, depth, types, row, t);
    }
  }

  /** Every row up to `depth` comes from a trail of 1..depth edges. */
  lemma RowsUpToSound(g: Graph, start: nat, depth: nat, types: seq<string>, row: RelatedRow)
    requires row in RowsUpTo(g, start, depth, types)
    ensures ReportedWithin(g, start, types, row, 1, depth)
  {
    var ls := Layers(g, start, depth, types);
    FlattenMembers(ls, row);
    var i :| 0 <= i < |ls| && row in ls[i];
    RowsAtExact(g, start, i + 1, types, row);
    var t :| i + 1 <= |t| <= i + 1 && RowFrom(g, start, types, t, row);
    assert 1 <= |t| <= depth;
  }

  /** The trail `t` of 1..depth edges has its row among those up to `depth`. */
  lemma RowsUpToComplete(g: Graph, start: nat, depth: nat, types: seq<string>, row: RelatedRow, t: seq<nat>)
    requires 1 <= |t| <= depth && RowFrom(g, start, types, t, row)
    ensures row in RowsUpTo(g, start, depth, types)
  {
    var ls := Layers(g, start, depth, types);
    RowsAtExact(g, start, |t|, types, row);
    assert ReportedWithin(g, start, types, row, |t|, |t|);
    assert row in ls[|t| - 1];
    FlattenMembers(ls, row);
  }

  /** The rows of `get_related_memories` with the relationship filter applied as
      intended: an unknown start id yields no rows; otherwise the rows come nearest
      first, each path as long as its distance, with no row repeated. */
  function FilteredRelatedMemories(g: Graph, memoryId: string, depth: nat, types: seq<string>): (r: seq<RelatedRow>)
    ensures FindMemory(g, memoryId).None? ==> r == []
    ensures Layered(r, depth)
  {
    match FindMemory(g, memoryId)
    case None => []
    case Some(s) =>
      RowsUpToLayered(g, s, depth, types);
      RowsUpTo(g, s, depth, types)
  }

  /** A row is returned exactly when some trail of 1..depth allowed edges leads from
      the start memory to the row's memory along the row's relationship path. */
  lemma FilteredRelatedMemoriesExact(g: Graph, memoryId: string, depth: nat, types: seq<string>, row: RelatedRow)
    requires FindMemory(g, memoryId).Some?
    ensures var s := FindMemory(g, memoryId).value;
      row in FilteredRelatedMemories(g, memoryId, depth, types) <==>
        exists t :: 1 <= |t| <= depth && RowFrom(g, s, types, t, row)
  {
    RowsUpToExact(g, FindMemory(g, memoryId).value, depth, types, row);
  }

  lemma {:induction false} WalkLabelsAllowed(g: Graph, start: nat, t: seq<nat>, types: seq<string>, k: nat)
    requires IsWalk(g, start, t, types) && k < |t|
    ensures t[k] < |g.edges| && Allowed(types, g.edges[t[k]].rel)
  {
    if k < |t| - 1 {
      WalkLabelsAllowed(g, start, t[..|t| - 1], types, k);
    }
  }

  /** With a type filter, every relationship on every reported path is one of the
      requested types. */
  lemma RelatedMemoriesFiltered(g: Graph, memoryId: string, depth: nat, types: seq<string>, i: nat, k: nat)
    requires types != []
    requires var r := FilteredRelatedMemories(g, memoryId, depth, types); i < |r| && k < |r[i].relationshipPath|
    ensures FilteredRelatedMemories(g, memoryId, depth, types)[i].relationshipPath[k] in types
  {
    var r := FilteredRelatedMemories(g, memoryId, depth, types);
    var s := FindMemory(g, memoryId).value;
    assert r[i] in r;
    FilteredRelatedMemoriesExact(g, memoryId, depth, types, r[i]);
    var t :| 1 <= |t| <= depth && RowFrom(g, s, types, t, r[i]);
    WalkLabelsAllowed(g, s, t, types, k);
  }

  /** What `get_related_memories` hands back: its rows, or the exception it raises. */
  datatype RelatedOutcome = Related(rows: seq<RelatedRow>) | FilterTypeError | PatternSyntaxError

  /** `get_related_memories(memory_id, depth, relationship_types)` as written. The
      filter expression evaluates `'' | ''.join(types)`, and `|` between two strings
      raises a TypeError, so every non-empty list fails before a query is sent. A
      negative depth puts `*1..-<n>` into the pattern, which Cypher refuses to parse.
      Otherwise the rows are those of the unfiltered traversal. */
  function GetRelatedMemories(g: Graph, memoryId: string, depth: int, types: seq<string>): (r: RelatedOutcome)
    ensures r.FilterTypeError? <==> types != []
    ensures r.PatternSyntaxError? <==> types == [] && depth < 0
    ensures r.Related? ==> FindMemory(g, memoryId).None? ==> r.rows == []
    ensures r.Related? ==> Layered(r.rows, depth)
  {
    if types != [] then FilterTypeError
    else if depth < 0 then PatternSyntaxError
    else Related(FilteredRelatedMemories(g, memoryId, depth, []))
  }

  /** Rows come back exactly for an empty type list and a non-negative depth, and
      then a row is returned exactly when some trail of 1..depth edges, of any type,
      leads from the start memory to the row's memory along the row's path. */
  lemma RelatedMemoriesExact(g: Graph, memoryId: string, depth: int, types: seq<string>, row: RelatedRow)
    requires FindMemory(g, memoryId).Some?
    ensures GetRelatedMemories(g, memoryId, depth, types).Related? <==> types == [] && depth >= 0
    ensures var r := GetRelatedMemories(g, memoryId, depth, types);
      r.Related? ==> (row in r.rows <==>
        exists t :: 1 <= |t| <= depth && RowFrom(g, FindMemory(g, memoryId).value, [], t, row))
  {
    if types == [] && depth >= 0 {
      FilteredRelatedMemoriesExact(g, memoryId, depth, [], row);
    }
  }

  /** The filter never reaches the database: two memories joined by a RELATES_TO
      relationship, asked for with `["RELATES_TO"]`, give a TypeError, while the
      filtered traversal returns the neighbour. */
  lemma FilterRaisesTypeError()
    ensures var g := Graph([Memory("a", "x", None, None, None, None, None),
                            Memory("b", "y", None, None, None, None, None)],
                           [Edge(0, RELATES_TO, 1, NoProps)]);
      && GetRelatedMemories(g, "a", 1, [RELATES_TO]) == FilterTypeError
      && RelatedRow("b", "y", [RELATES_TO], 1) in FilteredRelatedMemories(g, "a", 1, [RELATES_TO])
  {
    var g := Graph([Memory("a", "x", None, None, None, None, None),
                    Memory("b", "y", None, None, None, None, None)],
                   [Edge(0, RELATES_TO, 1, NoProps)]);
    var row := RelatedRow("b", "y", [RELATES_TO], 1);
    assert FindMemory(g, "a") == Some(0) by {
      assert IsMemoryWithId("a", g.nodes[0]);
    }
    var t: seq<nat> := [0];
    assert t[..0] == [];
    assert IsWalk(g, 0, t, [RELATES_TO]);
    assert Labels(g, t) == [RELATES_TO];
    assert RowFrom(g, 0, [RELATES_TO], t, row);
    FilteredRelatedMemoriesExact(g, "a", 1, [RELATES_TO], row);
  }

  // ---------------------------------------------------------------------------
  // find_path: breadth-first layers over all relationship types

  function Expand(g: Graph, s: set<nat>): (r: set<nat>)
    ensures s <= r
  {
    s + Neighbours(g, s, |g.edges|)
  }

  /** The nodes joined to `s` by one of the first `n` edges, in either direction. */
  function Neighbours(g: Graph, s: set<nat>, n: nat): set<nat>
    requires n <= |g.edges|
  {
    if n == 0 then {}
    else
      var e := g.edges[n - 1];
      Neighbours(g, s, n - 1) + (if e.src in s then {e.dst} else {}) + (if e.dst in s then {e.src} else {})
  }

  /** `y` is a neighbour exactly when one of the edges touches it and leads back
      into `s`. */
  lemma {:induction false} NeighboursMembers(g: Graph, s: set<nat>, n: nat, y: nat)
    requires n <= |g.edges|
    ensures y in Neighbours(g, s, n) <==>
      exists e :: 0 <= e < n && Touches(g.edges[e], y) && Across(g.edges[e], y) in s
  {
    if n > 0 {
      NeighboursMembers(g, s, n - 1, y);
      var e := g.edges[n - 1];
      if y in Neighbours(g, s, n) && y !in Neighbours(g, s, n - 1) {
        assert Touches(g.edges[n - 1], y) && Across(g.edges[n - 1], y) in s;
      }
    }
  }

  /** Crossing an edge out of `s` lands in the expansion of `s`. */
  lemma ExpandAcross(g: Graph, s: set<nat>, e: nat, x: nat)
    requires e < |g.edges| && Touches(g.edges[e], x) && x in s
    ensures Across(g.edges[e], x) in Expand(g, s)
  {
    var y := Across(g.edges[e], x);
    AcrossBack(g.edges[e], x);
    NeighboursMembers(g, s, |g.edges|, y);
  }

  /** Every edge touching a node of `s` leads to a node of the graph. */
  lemma {:induction false} NeighboursInNodes(g: Graph, s: set<nat>, n: nat)
    requires EdgesInRange(g) && n <= |g.edges|
    ensures forall y :: y in Neighbours(g, s, n) ==> y < |g.nodes|
  {
    if n > 0 {
      NeighboursInNodes(g, s, n - 1);
    }
  }


  /** The nodes within `k` undirected hops of `start`. */
  function Ball(g: Graph, start: nat, k: nat): set<nat> {
    if k == 0 then {start} else Expand(g, Ball(g, start, k - 1))
  }

  lemma {:induction false} BallMonotone(g: Graph, start: nat, j: nat, k: nat)
    requires j <= k
    ensures Ball(g, start, j) <= Ball(g, start, k)
  {
    if j < k {
      BallMonotone(g, start, j, k - 1);
    }
  }

  /** Every walk of at most `k` edges ends inside the ball of radius `k`. */
  lemma {:induction false} WalkInBall(g: Graph, start: nat, t: seq<nat>, k: nat)
    requires IsWalk(g, start, t, []) && |t| <= k
    ensures InRange(g, t) && WalkEnd(g, start, t) in Ball(g, start, k)
  {
    WalkInRange(g, start, t, []);
    if t == [] {
      BallMonotone(g, start, 0, k);
    } else {
      var p := t[..|t| - 1];
      var e := g.edges[t[|t| - 1]];
      WalkInBall(g, start, p, k - 1);
      var x := WalkEnd(g, start, p);
      ExpandAcross(g, Ball(g, start, k - 1), t[|t| - 1], x);
    }
  }

  lemma EdgeBackExists(g: Graph, y: nat, s: set<nat>)
    requires y in Expand(g, s) && y !in s
    ensures exists e :: 0 <= e < |g.edges| && Touches(g.edges[e], y) && Across(g.edges[e], y) in s
  {
    NeighboursMembers(g, s, |g.edges|, y);
  }

  /** The first edge by which `y` joined the layer after `s`: it touches `y` and
      leads back into `s`. */
  function EdgeBack(g: Graph, y: nat, s: set<nat>): (r: nat)
    requires y in Expand(g, s) && y !in s
    ensures r < |g.edges| && Touches(g.edges[r], y) && Across(g.edges[r], y) in s
  {
    EdgeBackExists(g, y, s);
    var f := FirstIndex(g.edges, ed => Touches(ed, y) && Across(ed, y) in s);
    var e :| 0 <= e < |g.edges| && Touches(g.edges[e], y) && Across(g.edges[e], y) in s;
    assert (ed => Touches(ed, y) && Across(ed, y) in s)(g.edges[e]);
    f.value
  }

  lemma AcrossBack(e: Edge, y: nat)
    requires Touches(e, y)
    ensures Touches(e, Across(e, y)) && Across(e, Across(e, y)) == y
  {
  }

  /** Appending an edge that touches the end of a walk extends the walk. */
  lemma WalkExtend(g: Graph, start: nat, p: seq<nat>, e: nat)
    requires IsWalk(g, start, p, []) && InRange(g, p)
    requires e < |g.edges| && Touches(g.edges[e], WalkEnd(g, start, p))
    ensures IsWalk(g, start, p + [e], []) && InRange(g, p + [e])
    ensures WalkEnd(g, start, p + [e]) == Across(g.edges[e], WalkEnd(g, start, p))
  {
    var t := p + [e];
    assert t[..|t| - 1] == p;
  }

  /** A walk of at most `k` edges from `start` to `y`, following the layers back. */
  function WalkTo(g: Graph, start: nat, y: nat, k: nat): (t: seq<nat>)
    requires y in Ball(g, start, k)
    decreases k
    ensures IsWalk(g, start, t, []) && InRange(g, t) && WalkEnd(g, start, t) == y && |t| <= k
  {
    if k == 0 then []
    else if y in Ball(g, start, k - 1) then WalkTo(g, start, y, k - 1)
    else
      var b := Ball(g, start, k - 1);
      var e := EdgeBack(g, y, b);
      var x := Across(g.edges[e], y);
      var p := WalkTo(g, start, x, k - 1);
      AcrossBack(g.edges[e], y);
      WalkExtend(g, start, p, e);
      p + [e]
  }

  lemma {:induction false} BallInNodes(g: Graph, start: nat, k: nat)
    requires EdgesInRange(g) && start < |g.nodes|
    ensures forall x :: x in Ball(g, start, k) ==> x < |g.nodes|
  {
    if k > 0 {
      BallInNodes(g, start, k - 1);
      NeighboursInNodes(g, Ball(g, start, k - 1), |g.edges|);
    }
  }


  lemma {:induction false} BallStaysStable(g: Graph, start: nat, k: nat, j: nat)
    requires Ball(g, start, k + 1) == Ball(g, start, k) && k <= j
    ensures Ball(g, start, j) == Ball(g, start, k)
  {
    if j > k {
      BallStaysStable(g, start, k, j - 1);
      ExpandSame(g, Ball(g, start, j - 1), Ball(g, start, k));
    }
  }

  /** Expanding equal sets gives equal sets. */
  lemma ExpandSame(g: Graph, a: set<nat>, b: set<nat>)
    requires a == b
    ensures Expand(g, a) == Expand(g, b)
  {
  }

  /** Each of the first `k` layers adds at least one node. */
  predicate Growing(g: Graph, start: nat, k: nat) {
    k == 0 || (Growing(g, start, k - 1) && Ball(g, start, k) != Ball(g, start, k - 1))
  }

  lemma {:induction false} BallGrows(g: Graph, start: nat, k: nat)
    requires Growing(g, start, k)
    ensures |Ball(g, start, k)| >= k + 1
  {
    if k > 0 {
      BallGrows(g, start, k - 1);
      SubsetCard(Ball(g, start, k - 1), Ball(g, start, k));
    }
  }

  /** A ball that stops growing somewhere before `k` repeats a layer. */
  lemma {:induction false} RepeatedLayer(g: Graph, start: nat, k: nat) returns (i: nat)
    requires !Growing(g, start, k)
    ensures i < k && Ball(g, start, i + 1) == Ball(g, start, i)
  {
    if Growing(g, start, k - 1) {
      i := k - 1;
    } else {
      i := RepeatedLayer(g, start, k - 1);
    }
  }

  /** Beyond as many layers as there are nodes the ball no longer grows. */
  lemma BallSaturates(g: Graph, start: nat, k: nat)
    requires EdgesInRange(g) && start < |g.nodes|
    ensures Ball(g, start, k) <= Ball(g, start, |g.nodes|)
  {
    var n := |g.nodes|;
    if k <= n {
      BallMonotone(g, start, k, n);
    } else {
      if Growing(g, start, n) {
        BallGrows(g, start, n);
        BallInNodes(g, start, n);
        assert Ball(g, start, n) <= RangeSet(n);
        SubsetCard(Ball(g, start, n), RangeSet(n));
        assert false;
      }
      var i := RepeatedLayer(g, start, n);
      BallStaysStable(g, start, i, k);
      BallStaysStable(g, start, i, n);
    }
  }


  /** A walk first found at radius `k` is no longer than any walk to its end. */
  lemma WalkToShortest(g: Graph, start: nat, target: nat, k: nat, u: seq<nat>)
    requires k >= 1 && target in Ball(g, start, k) && target !in Ball(g, start, k - 1)
    requires IsWalk(g, start, u, []) && InRange(g, u) && WalkEnd(g, start, u) == target
    ensures |WalkTo(g, start, target, k)| <= |u|
  {
    if |u| < k {
      WalkInBall(g, start, u, k - 1);
      assert false;
    }
  }

  /** Tries radius k, k+1, ..., |nodes|: the first radius whose ball holds `target`. */
  function Search(g: Graph, start: nat, target: nat, k: nat): (r: Option<seq<nat>>)
    requires k >= 1 && target !in Ball(g, start, k - 1)
    decreases |g.nodes| + 1 - k
    ensures r.Some? ==> IsWalk(g, start, r.value, []) && InRange(g, r.value) && WalkEnd(g, start, r.value) == target
    ensures r.Some? ==> forall t :: IsWalk(g, start, t, []) && InRange(g, t) && WalkEnd(g, start, t) == target ==> |r.value| <= |t|
  {
    if k > |g.nodes| then None
    else if target in Ball(g, start, k) then
      var t := WalkTo(g, start, target, k);
      assert forall u :: IsWalk(g, start, u, []) && InRange(g, u) && WalkEnd(g, start, u) == target ==> |t| <= |u| by {
        forall u | IsWalk(g, start, u, []) && InRange(g, u) && WalkEnd(g, start, u) == target ensures |t| <= |u| {
          WalkToShortest(g, start, target, k, u);
        }
      }
      Some(t)
    else Search(g, start, target, k + 1)
  }

  lemma {:induction false} SearchFinds(g: Graph, start: nat, target: nat, k: nat)
    requires k >= 1 && target !in Ball(g, start, k - 1)
    requires k <= |g.nodes| && target in Ball(g, start, |g.nodes|)
    ensures Search(g, start, target, k).Some?
    decreases |g.nodes| - k
  {
    if target !in Ball(g, start, k) {
      if k == |g.nodes| {
        assert false;
      }
      SearchFinds(g, start, target, k + 1);
    }
  }

  datatype PathResult = PathResult(memoryIds: seq<Option<string>>, relationships: seq<string>, pathLength: nat)

  /** The outcome of the shortestPath query. Neo4j refuses a shortestPath whose two
      end points are the same node, which surfaces as an error. */
  datatype PathOutcome = Found(path: PathResult) | NoPath | QueryError

  /** `node.id` of any node: Components, Arguments and Validations have none. */
  function NodeId(n: Node): Option<string> {
    if n.Memory? || n.Decision? then Some(n.id) else None
  }

  function PathNodes(g: Graph, start: nat, t: seq<nat>): (r: seq<Option<string>>)
    requires EdgesInRange(g) && start < |g.nodes| && InRange(g, t)
    ensures |r| == |t| + 1
    ensures r[0] == NodeId(g.nodes[start]) && r[|t|] == NodeId(g.nodes[WalkEnd(g, start, t)])
  {
    if t == [] then [NodeId(g.nodes[start])]
    else PathNodes(g, start, t[..|t| - 1]) + [NodeId(g.nodes[WalkEnd(g, start, t)])]
  }

  /** `find_path(from_id, to_id)` */
  function FindPath(g: Graph, fromId: string, toId: string): (r: PathOutcome)
    requires Valid(g)
    ensures r.Found? ==> r.path.pathLength >= 1 && |r.path.relationships| == r.path.pathLength
    ensures r.Found? ==> |r.path.memoryIds| == r.path.pathLength + 1
    ensures r.Found? ==> r.path.memoryIds[0] == Some(fromId) && r.path.memoryIds[r.path.pathLength] == Some(toId)
  {
    match (FindMemory(g, fromId), FindMemory(g, toId))
    case (Some(i), Some(j)) =>
      if i == j then QueryError
      else
        (match Search(g, i, j, 1)
         case None => NoPath
         case Some(t) =>
           if t == [] then NoPath
           else Found(PathResult(PathNodes(g, i, t), Labels(g, t), |t|)))
    case _ => NoPath
  }

  /** There is no path exactly when an end point is missing or no walk joins two
      distinct end points; the same memory at both ends is a query error. */
  lemma FindPathNotFound(g: Graph, fromId: string, toId: string)
    requires Valid(g)
    ensures FindPath(g, fromId, toId) == NoPath <==>
      FindMemory(g, fromId).None? || FindMemory(g, toId).None? ||
      (var i, j := FindMemory(g, fromId).value, FindMemory(g, toId).value;
       i != j && forall t :: IsWalk(g, i, t, []) && InRange(g, t) ==> WalkEnd(g, i, t) != j)
    ensures FindPath(g, fromId, toId) == QueryError <==>
      FindMemory(g, fromId).Some? && FindMemory(g, toId).Some? && fromId == toId
  {
    if FindMemory(g, fromId).Some? && FindMemory(g, toId).Some? {
      var i, j := FindMemory(g, fromId).value, FindMemory(g, toId).value;
      if fromId == toId {
        assert i == j;
      } else {
        assert i != j;
        var s := Search(g, i, j, 1);
        if s.Some? {
          assert s.value != [];
        }
        if exists t :: IsWalk(g, i, t, []) && InRange(g, t) && WalkEnd(g, i, t) == j {
          var t :| IsWalk(g, i, t, []) && InRange(g, t) && WalkEnd(g, i, t) == j;
          WalkInBall(g, i, t, |t|);
          BallSaturates(g, i, |t|);
          assert |g.nodes| >= 1;
          SearchFinds(g, i, j, 1);
        }
      }
    }
  }

  /** A found path is a walk between the two memories, and no walk between them is
      shorter. */
  lemma FindPathShortest(g: Graph, fromId: string, toId: string)
    requires Valid(g) && FindPath(g, fromId, toId).Found?
    ensures var i, j := FindMemory(g, fromId).value, FindMemory(g, toId).value;
      var p := FindPath(g, fromId, toId).path;
      (exists t :: IsWalk(g, i, t, []) && InRange(g, t) && WalkEnd(g, i, t) == j
                   && |t| == p.pathLength && Labels(g, t) == p.relationships)
      && forall u :: IsWalk(g, i, u, []) && InRange(g, u) && WalkEnd(g, i, u) == j ==> p.pathLength <= |u|
  {
    var i, j := FindMemory(g, fromId).value, FindMemory(g, toId).value;
    var t := Search(g, i, j, 1).value;
    assert IsWalk(g, i, t, []) && InRange(g, t) && WalkEnd(g, i, t) == j && Labels(g, t) == FindPath(g, fromId, toId).path.relationships;
  }
}
