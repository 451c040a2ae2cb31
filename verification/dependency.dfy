/** `get_impact_analysis`: which components depend, directly or through a chain of
    DEPENDS_ON relationships, on a given component, which memories affect it, and
    which memories affect its dependents. The three collections are
    `collect(DISTINCT ...)` results whose order Cypher leaves open, so they are sets
    here; only their sizes enter the score. */
module Dependency {
  import opened Common
  import opened GraphStore

  /** `(a)-[:DEPENDS_ON*]->(c)` along the edges `t`, read from `a` towards `c`.
      Only the DEPENDS_ON label is followed, whatever label a dependency was
      created with. */
  predicate IsChain(g: Graph, a: nat, t: seq<nat>, c: nat)
    decreases |t|
  {
    if t == [] then a == c
    else
      && t[0] < |g.edges| && g.edges[t[0]].rel == DEPENDS_ON && g.edges[t[0]].src == a
      && IsChain(g, g.edges[t[0]].dst, t[1..], c)
  }

  /** A DEPENDS_ON edge `e` that leads from `a` into `s`. */
  predicate StepsInto(g: Graph, e: nat, a: nat, s: set<nat>) {
    e < |g.edges| && g.edges[e].rel == DEPENDS_ON && g.edges[e].dst in s && g.edges[e].src == a
  }

  /** The sources of those of the first `n` edges that are DEPENDS_ON edges into `s`. */
  function Sources(g: Graph, s: set<nat>, n: nat): set<nat>
    requires n <= |g.edges|
  {
    if n == 0 then {}
    else
      var e := g.edges[n - 1];
      Sources(g, s, n - 1) + if e.rel == DEPENDS_ON && e.dst in s then {e.src} else {}
  }

  lemma {:induction false} SourcesSound(g: Graph, s: set<nat>, n: nat, a: nat) returns (e: nat)
    requires n <= |g.edges| && a in Sources(g, s, n)
    ensures e < n && StepsInto(g, e, a, s)
  {
    var last := g.edges[n - 1];
    if a in Sources(g, s, n - 1) {
      e := SourcesSound(g, s, n - 1, a);
    } else {
      e := n - 1;
    }
  }

  lemma {:induction false} SourcesComplete(g: Graph, s: set<nat>, n: nat, a: nat, e: nat)
    requires n <= |g.edges| && e < n && StepsInto(g, e, a, s)
    ensures a in Sources(g, s, n)
  {
    if e < n - 1 {
      SourcesComplete(g, s, n - 1, a, e);
    }
  }

  lemma {:induction false} SourcesInNodes(g: Graph, s: set<nat>, n: nat)
    requires EdgesInRange(g) && n <= |g.edges|
    ensures Sources(g, s, n) <= RangeSet(|g.nodes|)
  {
    if n > 0 {
      SourcesInNodes(g, s, n - 1);
    }
  }

  /** One step against the direction of DEPENDS_ON edges. */
  function Pre(g: Graph, s: set<nat>): (r: set<nat>)
    ensures s <= r
  {
    s + Sources(g, s, |g.edges|)
  }

  /** The nodes with a chain of at most `k` edges to `c`. */
  function Upstream(g: Graph, c: nat, k: nat): set<nat> {
    if k == 0 then {c} else Pre(g, Upstream(g, c, k - 1))
  }

  lemma {:induction false} UpstreamMonotone(g: Graph, c: nat, j: nat, k: nat)
    requires j <= k
    ensures Upstream(g, c, j) <= Upstream(g, c, k)
  {
    if j < k {
      UpstreamMonotone(g, c, j, k - 1);
    }
  }

  lemma {:induction false} ChainInUpstream(g: Graph, a: nat, t: seq<nat>, c: nat)
    requires IsChain(g, a, t, c)
    ensures a in Upstream(g, c, |t|)
    decreases |t|
  {
    if t != [] {
      var e := t[0];
      ChainInUpstream(g, g.edges[e].dst, t[1..], c);
      SourcesComplete(g, Upstream(g, c, |t| - 1), |g.edges|, a, e);
    }
  }

  lemma {:induction false} UpstreamHasChain(g: Graph, c: nat, a: nat, k: nat)
    requires a in Upstream(g, c, k)
    ensures exists t :: IsChain(g, a, t, c)
    decreases k
  {
    if k == 0 {
      assert IsChain(g, a, [], c);
    } else if a in Upstream(g, c, k - 1) {
      UpstreamHasChain(g, c, a, k - 1);
    } else {
      var e := SourcesSound(g, Upstream(g, c, k - 1), |g.edges|, a);
      UpstreamHasChain(g, c, g.edges[e].dst, k - 1);
      var t :| IsChain(g, g.edges[e].dst, t, c);
      assert ([e] + t)[1..] == t;
      assert IsChain(g, a, [e] + t, c);
    }
  }

  lemma {:induction false} UpstreamInNodes(g: Graph, c: nat, k: nat)
    requires EdgesInRange(g) && c < |g.nodes|
    ensures Upstream(g, c, k) <= RangeSet(|g.nodes|)
  {
    if k > 0 {
      UpstreamInNodes(g, c, k - 1);
      SourcesInNodes(g, Upstream(g, c, k - 1), |g.edges|);
    }
  }

  lemma {:induction false} UpstreamStaysStable(g: Graph, c: nat, k: nat, j: nat)
    requires Upstream(g, c, k + 1) == Upstream(g, c, k) && k <= j
    ensures Upstream(g, c, j) == Upstream(g, c, k)
  {
    if j > k {
      UpstreamStaysStable(g, c, k, j - 1);
      calc {
        Upstream(g, c, j);
        Pre(g, Upstream(g, c, j - 1));
        { assert Upstream(g, c, j - 1) == Upstream(g, c, k); }
        Pre(g, Upstream(g, c, k));
        Upstream(g, c, k + 1);
      }
    }
  }

  lemma {:induction false} UpstreamGrows(g: Graph, c: nat, k: nat)
    requires forall i :: 0 <= i < k ==> Upstream(g, c, i + 1) != Upstream(g, c, i)
    ensures |Upstream(g, c, k)| >= k + 1
  {
    if k > 0 {
      UpstreamGrows(g, c, k - 1);
      var a, b := Upstream(g, c, k - 1), Upstream(g, c, k);
      assert b == Pre(g, a);
      SubsetCard(a, b);
    }
  }

  /** After as many steps as there are nodes, nothing new is reached. */
  lemma UpstreamSaturates(g: Graph, c: nat, k: nat)
    requires EdgesInRange(g) && c < |g.nodes|
    ensures Upstream(g, c, k) <= Upstream(g, c, |g.nodes|)
  {
    var n := |g.nodes|;
    if k <= n {
      UpstreamMonotone(g, c, k, n);
    } else {
      if forall i :: 0 <= i < n ==> Upstream(g, c, i + 1) != Upstream(g, c, i) {
        UpstreamGrows(g, c, n);
        UpstreamInNodes(g, c, n);
        SubsetCard(Upstream(g, c, n), RangeSet(n));
        assert false;
      }
      var i :| 0 <= i < n && Upstream(g, c, i + 1) == Upstream(g, c, i);
      UpstreamStaysStable(g, c, i, k);
      UpstreamStaysStable(g, c, i, n);
    }
  }

  /** `collect(DISTINCT dependent.name)`: the components with a DEPENDS_ON chain of
      at least one edge into `c`. */
  function Dependents(g: Graph, c: nat): set<string> {
    var up := Upstream(g, c, |g.nodes|);
    set e | 0 <= e < |g.edges| && g.edges[e].rel == DEPENDS_ON && g.edges[e].dst in up
                && g.edges[e].src < |g.nodes| && g.nodes[g.edges[e].src].Component?
          :: g.nodes[g.edges[e].src].name
  }

  /** Every dependent's name belongs to a component with a chain into `c`. */
  lemma DependentHasChain(g: Graph, c: nat, name: string) returns (a: nat, t: seq<nat>)
    requires name in Dependents(g, c)
    ensures a < |g.nodes| && IsComponentNamed(name, g.nodes[a]) && |t| >= 1 && IsChain(g, a, t, c)
  {
    var up := Upstream(g, c, |g.nodes|);
    var e :| 0 <= e < |g.edges| && g.edges[e].rel == DEPENDS_ON && g.edges[e].dst in up
              && g.edges[e].src < |g.nodes| && g.nodes[g.edges[e].src].Component?
              && g.nodes[g.edges[e].src].name == name;
    UpstreamHasChain(g, c, g.edges[e].dst, |g.nodes|);
    var rest :| IsChain(g, g.edges[e].dst, rest, c);
    assert ([e] + rest)[1..] == rest;
    a, t := g.edges[e].src, [e] + rest;
  }

  /** Every component with a chain of at least one edge into `c` is a dependent. */
  lemma ChainMakesDependent(g: Graph, c: nat, name: string, a: nat, t: seq<nat>)
    requires EdgesInRange(g) && c < |g.nodes|
    requires a < |g.nodes| && IsComponentNamed(name, g.nodes[a]) && |t| >= 1 && IsChain(g, a, t, c)
    ensures name in Dependents(g, c)
  {
    var e := t[0];
    ChainInUpstream(g, g.edges[e].dst, t[1..], c);
    UpstreamSaturates(g, c, |t| - 1);
    assert g.edges[e].dst in Upstream(g, c, |g.nodes|);
  }

  /** A name is a dependent exactly when a component of that name reaches `c`
      through one or more DEPENDS_ON edges. */
  lemma DependentsExact(g: Graph, c: nat, name: string)
    requires EdgesInRange(g) && c < |g.nodes|
    ensures name in Dependents(g, c) <==>
      exists a: nat, t :: a < |g.nodes| && IsComponentNamed(name, g.nodes[a]) && |t| >= 1 && IsChain(g, a, t, c)
  {
    if name in Dependents(g, c) {
      var a, t := DependentHasChain(g, c, name);
    }
    if exists a: nat, t :: a < |g.nodes| && IsComponentNamed(name, g.nodes[a]) && |t| >= 1 && IsChain(g, a, t, c) {
      var a: nat, t :| a < |g.nodes| && IsComponentNamed(name, g.nodes[a]) && |t| >= 1 && IsChain(g, a, t, c);
      ChainMakesDependent(g, c, name, a, t);
    }
  }

  /** `(m:Memory)-[:AFFECTS]->(c)` */
  function Affecting(g: Graph, c: nat): set<MemoryRef> {
    set e | 0 <= e < |g.edges| && g.edges[e].rel == AFFECTS && g.edges[e].dst == c
              && g.edges[e].src < |g.nodes| && g.nodes[g.edges[e].src].Memory?
          :: MemoryRef(g.nodes[g.edges[e].src].id, g.nodes[g.edges[e].src].text)
  }

  datatype CascadeRef = CascadeRef(id: string, text: string, affects: string)

  /** `(dependent_mem:Memory)-[:AFFECTS]->(dep:Component) WHERE dep.name IN ...` */
  function Cascade(g: Graph, deps: set<string>): set<CascadeRef> {
    set e | 0 <= e < |g.edges| && g.edges[e].rel == AFFECTS
              && g.edges[e].src < |g.nodes| && g.nodes[g.edges[e].src].Memory?
              && g.edges[e].dst < |g.nodes| && g.nodes[g.edges[e].dst].Component?
              && g.nodes[g.edges[e].dst].name in deps
          :: CascadeRef(g.nodes[g.edges[e].src].id, g.nodes[g.edges[e].src].text, g.nodes[g.edges[e].dst].name)
  }

  datatype Impact = Impact(component: string, dependentComponents: set<string>,
                           affectingMemories: set<MemoryRef>, cascadeImpact: set<CascadeRef>,
                           impactScore: nat)

  /** `{"error": "Component not found"}` or the analysis. */
  datatype ImpactOutcome = Analysed(impact: Impact) | ComponentNotFound

  /** `get_impact_analysis(component_name)`. Each of the three MATCH clauses is a
      plain (not OPTIONAL) match, so an empty one leaves no row and the caller sees
      the not-found error even though the component exists. */
  function GetImpactAnalysis(g: Graph, name: string): (r: ImpactOutcome)
    requires Valid(g)
    ensures r.ComponentNotFound? <==>
      FindComponent(g, name).None? ||
      (var c := FindComponent(g, name).value;
       Dependents(g, c) == {} || Affecting(g, c) == {} || Cascade(g, Dependents(g, c)) == {})
    ensures r.Analysed? ==>
      && r.impact.component == name
      && r.impact.dependentComponents != {} && r.impact.affectingMemories != {} && r.impact.cascadeImpact != {}
      && r.impact.impactScore == |r.impact.dependentComponents| + |r.impact.cascadeImpact|
  {
    match FindComponent(g, name)
    case None => ComponentNotFound
    case Some(c) =>
      var deps := Dependents(g, c);
      var affecting := Affecting(g, c);
      var cascade := Cascade(g, deps);
      if deps == {} || affecting == {} || cascade == {} then ComponentNotFound
      else Analysed(Impact(name, deps, affecting, cascade, |deps| + |cascade|))
  }

  /** Every memory listed in the cascade affects a component that depends on the
      analysed one through DEPENDS_ON edges. */
  lemma CascadeThroughDependents(g: Graph, name: string, x: CascadeRef)
    requires Valid(g) && GetImpactAnalysis(g, name).Analysed?
    requires x in GetImpactAnalysis(g, name).impact.cascadeImpact
    ensures exists a: nat, t :: a < |g.nodes| && IsComponentNamed(x.affects, g.nodes[a]) && |t| >= 1
                           && IsChain(g, a, t, FindComponent(g, name).value)
  {
    var c := FindComponent(g, name).value;
    DependentsExact(g, c, x.affects);
  }
}
