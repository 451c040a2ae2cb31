/** The decision graph: `create_decision` adds a Decision node, one Argument node per
    pro (BASED_ON) and per con (CONSIDERED), and a CHOSEN_OVER edge to every
    Decision whose text is an alternative (creating one when none exists);
    `get_decision_rationale` reads the argument and alternative texts back.

    Each Cypher statement of `create_decision` is one function here; the loops
    that issue them are `MemoryIntelligence.CreateDecision`. */
module Decisions {
  import opened Common
  import opened GraphStore

  // ---------------------------------------------------------------------------
  // Reading a rationale

  /** Which end nodes an OPTIONAL MATCH of the rationale query accepts. */
  datatype Target = ProArgument | ConArgument | AnyDecision

  predicate Wanted(w: Target, n: Node) {
    match w
    case ProArgument => n.Argument? && n.argKind == Pro
    case ConArgument => n.Argument? && n.argKind == Con
    case AnyDecision => n.Decision?
  }

  function TextOf(n: Node): string {
    match n
    case Memory(_, text, _, _, _, _, _) => text
    case Decision(_, text, _, _, _, _) => text
    case Argument(_, text, _) => text
    case _ => ""
  }

  /** `(d)-[:rel]->(x)` with `x` a wanted node. */
  predicate Reaches(nodes: seq<Node>, e: Edge, d: nat, rel: string, w: Target) {
    e.src == d && e.rel == rel && e.dst < |nodes| && Wanted(w, nodes[e.dst])
  }

  /** The texts of the wanted nodes that `(d)-[:rel]->` reaches over `es`, in edge
      order and with repetitions. */
  function Targets(nodes: seq<Node>, es: seq<Edge>, d: nat, rel: string, w: Target): seq<string> {
    if es == [] then []
    else
      var e := es[|es| - 1];
      Targets(nodes, es[..|es| - 1], d, rel, w) + (if Reaches(nodes, e, d, rel, w) then [TextOf(nodes[e.dst])] else [])
  }

  lemma {:induction false} TargetsMembers(nodes: seq<Node>, es: seq<Edge>, d: nat, rel: string, w: Target, x: string)
    ensures x in Targets(nodes, es, d, rel, w) <==>
      exists k :: 0 <= k < |es| && Reaches(nodes, es[k], d, rel, w) && TextOf(nodes[es[k].dst]) == x
  {
    if es != [] {
      var p := es[..|es| - 1];
      TargetsMembers(nodes, p, d, rel, w, x);
      assert forall k :: 0 <= k < |p| ==> p[k] == es[k];
    }
  }

  lemma {:induction false} TargetsAppend(nodes: seq<Node>, a: seq<Edge>, b: seq<Edge>, d: nat, rel: string, w: Target)
    ensures Targets(nodes, a + b, d, rel, w) == Targets(nodes, a, d, rel, w) + Targets(nodes, b, d, rel, w)
  {
    if b == [] {
      assert a + b == a;
    } else {
      var ab := a + b;
      assert ab[..|ab| - 1] == a + b[..|b| - 1];
      TargetsAppend(nodes, a, b[..|b| - 1], d, rel, w);
    }
  }

  /** Edges that leave other nodes, or carry another label, contribute nothing. */
  lemma {:induction false} TargetsNone(nodes: seq<Node>, es: seq<Edge>, d: nat, rel: string, w: Target)
    requires forall k :: 0 <= k < |es| ==> es[k].src != d || es[k].rel != rel
    ensures Targets(nodes, es, d, rel, w) == []
  {
    if es != [] {
      TargetsNone(nodes, es[..|es| - 1], d, rel, w);
    }
  }

  /** Growing the node sequence does not change what edges into its old part reach. */
  lemma {:induction false} TargetsGrowNodes(nodes: seq<Node>, more: seq<Node>, es: seq<Edge>, d: nat, rel: string, w: Target)
    requires forall k :: 0 <= k < |es| ==> es[k].dst < |nodes|
    ensures Targets(nodes + more, es, d, rel, w) == Targets(nodes, es, d, rel, w)
  {
    if es != [] {
      TargetsGrowNodes(nodes, more, es[..|es| - 1], d, rel, w);
    }
  }

  datatype Rationale = Rationale(decision: string, created: Option<int>, metadata: Option<Metadata>,
                                 pros: seq<string>, cons: seq<string>, alternativesConsidered: seq<string>)

  datatype RationaleOutcome = Explained(rationale: Rationale) | DecisionNotFound

  /** `[p for p in collect(DISTINCT ...) if p]` */
  function Collected(texts: seq<string>): (r: seq<string>)
    ensures NoDuplicates(r)
    ensures forall x :: x in r <==> x in texts && x != ""
  {
    var dist := Distinct(texts);
    NonEmptyKeepsDistinct(dist);
    assert forall x :: x in dist <==> x in texts by {
      forall x ensures x in dist <==> x in texts {
        if x in dist { var k :| 0 <= k < |dist| && dist[k] == x; }
        if x in texts { var k :| 0 <= k < |texts| && texts[k] == x; }
      }
    }
    NonEmpty(dist)
  }

  /** `get_decision_rationale(decision_id)`. The arguments are not sorted by their
      `order` property; the lists follow the order relationships were created in. */
  function GetDecisionRationale(g: Graph, id: string): (r: RationaleOutcome)
    ensures r.DecisionNotFound? <==> forall k :: 0 <= k < |g.nodes| ==> !IsDecisionWithId(id, g.nodes[k])
    ensures r.Explained? ==>
      && NoDuplicates(r.rationale.pros) && NoDuplicates(r.rationale.cons)
      && NoDuplicates(r.rationale.alternativesConsidered)
      && "" !in r.rationale.pros && "" !in r.rationale.cons && "" !in r.rationale.alternativesConsidered
  {
    match FindDecision(g, id)
    case None => DecisionNotFound
    case Some(d) =>
      var n := g.nodes[d];
      Explained(Rationale(n.text, n.created, n.metadata,
                          Collected(Targets(g.nodes, g.edges, d, BASED_ON, ProArgument)),
                          Collected(Targets(g.nodes, g.edges, d, CONSIDERED, ConArgument)),
                          Collected(Targets(g.nodes, g.edges, d, CHOSEN_OVER, AnyDecision))))
  }

  // ---------------------------------------------------------------------------
  // Creating a decision, one Cypher statement at a time

  /** `pros or []` */
  function OrEmpty(o: Option<seq<string>>): (r: seq<string>)
    ensures o.Some? ==> r == o.value
    ensures o.None? ==> r == []
  {
    if o.Some? then o.value else []
  }

  /** `f"decision_{timestamp}"` */
  function DecisionId(stamp: string): string {
    "decision_" + stamp
  }

  /** `f"alt_{timestamp}_{alt[:10]}"` */
  function AltId(stamp: string, alt: string): (r: string)
    ensures |r| == 5 + |stamp| + (if |alt| < 10 then |alt| else 10)
  {
    "alt_" + stamp + "_" + alt[..if |alt| < 10 then |alt| else 10]
  }

  /** The Decision node; `metadata` is stored only when it is truthy. */
  function DecisionNode(id: string, text: string, userId: string, now: int, metadata: Option<Metadata>): (n: Node)
    ensures n.Decision? && n.id == id && n.text == text && n.userId == Some(userId) && n.created == Some(now)
    ensures n.metadata.Some? <==> Supplied(metadata)
  {
    Decision(id, text, Some(userId), Some(now), if Supplied(metadata) then metadata else None, None)
  }

  /** `CREATE (d:Decision {...})` */
  function CreateDecisionNode(g: Graph, node: Node): Graph {
    Graph(g.nodes + [node], g.edges)
  }

  /** `MATCH (d:Decision {id: $id}) CREATE (arg:Argument {...}) CREATE (d)-[:rel]->(arg)`
      for the single decision `d`. */
  function AddArgument(g: Graph, d: nat, kind: ArgKind, rel: string, text: string, order: nat): Graph {
    Graph(g.nodes + [Argument(kind, text, order)], g.edges + [Edge(d, rel, |g.nodes|, NoProps)])
  }

  function ArgumentNodes(kind: ArgKind, texts: seq<string>): seq<Node> {
    seq(|texts|, i requires 0 <= i < |texts| => Argument(kind, texts[i], i))
  }

  function ArgumentEdges(d: nat, rel: string, base: nat, n: nat): seq<Edge> {
    seq(n, i requires 0 <= i < n => Edge(d, rel, base + i, NoProps))
  }

  /** The arguments of the whole pros (or cons) loop, in closed form. */
  function WithArguments(g: Graph, d: nat, kind: ArgKind, rel: string, texts: seq<string>): Graph {
    Graph(g.nodes + ArgumentNodes(kind, texts), g.edges + ArgumentEdges(d, rel, |g.nodes|, |texts|))
  }

  /** One loop step adds the next argument. */
  lemma WithArgumentsStep(g: Graph, d: nat, kind: ArgKind, rel: string, texts: seq<string>, i: nat)
    requires i < |texts|
    ensures WithArguments(g, d, kind, rel, texts[..i + 1])
         == AddArgument(WithArguments(g, d, kind, rel, texts[..i]), d, kind, rel, texts[i], i)
  {
    var a := WithArguments(g, d, kind, rel, texts[..i + 1]);
    var b := AddArgument(WithArguments(g, d, kind, rel, texts[..i]), d, kind, rel, texts[i], i);
    assert a.nodes == b.nodes;
    assert a.edges == b.edges;
  }

  /** The indices of the Decision nodes with text `t`, in node order. */
  function DecisionsWithText(nodes: seq<Node>, t: string): (r: seq<nat>)
    ensures forall k :: 0 <= k < |r| ==> r[k] < |nodes| && nodes[r[k]].Decision? && nodes[r[k]].text == t
    ensures r == [] <==> forall k :: 0 <= k < |nodes| ==> !(nodes[k].Decision? && nodes[k].text == t)
  {
    if nodes == [] then []
    else
      var p := DecisionsWithText(nodes[..|nodes| - 1], t);
      var last := nodes[|nodes| - 1];
      p + (if last.Decision? && last.text == t then [|nodes| - 1] else [])
  }

  /** A CHOSEN_OVER edge from `d` into a Decision whose text is one of `alts`. */
  predicate AltEdge(nodes: seq<Node>, e: Edge, d: nat, alts: seq<string>) {
    e.src == d && e.rel == CHOSEN_OVER && e.dst < |nodes| && nodes[e.dst].Decision? && nodes[e.dst].text in alts
  }

  /** `MERGE (alt:Decision {text: $alt_text}) ON CREATE SET ... CREATE (d)-[:CHOSEN_OVER]->(alt)`:
      one new CHOSEN_OVER edge to every Decision with that text, or a new Decision
      (not chosen) and one edge to it. */
  function AddAlternative(g: Graph, d: nat, alt: string, altId: string, now: int): (r: Graph)
    ensures |g.nodes| <= |r.nodes| && r.nodes[..|g.nodes|] == g.nodes
    ensures |r.nodes| == |g.nodes| + (if DecisionsWithText(g.nodes, alt) == [] then 1 else 0)
    ensures |r.nodes| > |g.nodes| ==> r.nodes[|g.nodes|] == Decision(altId, alt, None, Some(now), None, Some(false))
    ensures |g.edges| < |r.edges| && r.edges[..|g.edges|] == g.edges
    ensures forall k :: |g.edges| <= k < |r.edges| ==> AltEdge(r.nodes, r.edges[k], d, [alt])
  {
    var ms := DecisionsWithText(g.nodes, alt);
    if ms == [] then
      Graph(g.nodes + [Decision(altId, alt, None, Some(now), None, Some(false))],
            g.edges + [Edge(d, CHOSEN_OVER, |g.nodes|, NoProps)])
    else
      Graph(g.nodes, g.edges + seq(|ms|, k requires 0 <= k < |ms| => Edge(d, CHOSEN_OVER, ms[k], NoProps)))
  }

  /** The whole alternatives loop. */
  function AddAlternatives(g: Graph, d: nat, alts: seq<string>, stamps: seq<string>, now: int): (r: Graph)
    requires |stamps| == |alts|
    ensures |g.nodes| <= |r.nodes| && r.nodes[..|g.nodes|] == g.nodes
    ensures |g.edges| <= |r.edges| && r.edges[..|g.edges|] == g.edges
  {
    if alts == [] then g
    else
      var n := |alts| - 1;
      AddAlternative(AddAlternatives(g, d, alts[..n], stamps[..n], now), d, alts[n], AltId(stamps[n], alts[n]), now)
  }

  /** Every edge the alternatives loop adds is a CHOSEN_OVER edge from `d` into a
      Decision whose text is one of the alternatives. */
  lemma {:induction false} AlternativesSound(g: Graph, d: nat, alts: seq<string>, stamps: seq<string>, now: int)
    requires |stamps| == |alts|
    ensures forall k :: |g.edges| <= k < |AddAlternatives(g, d, alts, stamps, now).edges| ==>
      AltEdge(AddAlternatives(g, d, alts, stamps, now).nodes, AddAlternatives(g, d, alts, stamps, now).edges[k], d, alts)
  {
    if alts != [] {
      var n := |alts| - 1;
      var g1 := AddAlternatives(g, d, alts[..n], stamps[..n], now);
      var r := AddAlternative(g1, d, alts[n], AltId(stamps[n], alts[n]), now);
      AlternativesSound(g, d, alts[..n], stamps[..n], now);
      forall k | |g.edges| <= k < |r.edges| ensures AltEdge(r.nodes, r.edges[k], d, alts) {
        if k < |g1.edges| {
          assert r.edges[k] == g1.edges[k];
          assert AltEdge(g1.nodes, g1.edges[k], d, alts[..n]);
          assert r.nodes[g1.edges[k].dst] == g1.nodes[g1.edges[k].dst];
        } else {
          assert AltEdge(r.nodes, r.edges[k], d, [alts[n]]);
        }
      }
    }
  }

  /** Some edge added between `before` and `after` is a CHOSEN_OVER edge from `d`
      into a Decision with text `alt`. */
  predicate ChoseOver(before: Graph, after: Graph, d: nat, alt: string) {
    exists k :: |before.edges| <= k < |after.edges| && AltEdge(after.nodes, after.edges[k], d, [alt])
  }

  /** Every alternative is reached by some edge the loop adds. */
  lemma {:induction false} AlternativesComplete(g: Graph, d: nat, alts: seq<string>, stamps: seq<string>, now: int, j: nat)
    requires |stamps| == |alts| && j < |alts|
    ensures ChoseOver(g, AddAlternatives(g, d, alts, stamps, now), d, alts[j])
  {
    var n := |alts| - 1;
    var g1 := AddAlternatives(g, d, alts[..n], stamps[..n], now);
    var r := AddAlternative(g1, d, alts[n], AltId(stamps[n], alts[n]), now);
    assert AddAlternatives(g, d, alts, stamps, now) == r;
    if j == n {
      assert AltEdge(r.nodes, r.edges[|g1.edges|], d, [alts[j]]);
    } else {
      AlternativesComplete(g, d, alts[..n], stamps[..n], now, j);
      var k :| |g.edges| <= k < |g1.edges| && AltEdge(g1.nodes, g1.edges[k], d, [alts[..n][j]]);
      assert r.edges[k] == g1.edges[k];
      assert r.nodes[g1.edges[k].dst] == g1.nodes[g1.edges[k].dst];
      assert AltEdge(r.nodes, r.edges[k], d, [alts[j]]);
    }
  }

  /** The graph `create_decision` leaves, statement by statement. */
  function CreateDecisionGraph(g: Graph, node: Node, pros: seq<string>, cons: seq<string>,
                               alts: seq<string>, altStamps: seq<string>, now: int): Graph
    requires |altStamps| == |alts|
  {
    var d := |g.nodes|;
    var g1 := CreateDecisionNode(g, node);
    var g2 := WithArguments(g1, d, Pro, BASED_ON, pros);
    var g3 := WithArguments(g2, d, Con, CONSIDERED, cons);
    AddAlternatives(g3, d, alts, altStamps, now)
  }

  /** No Decision yet carries this id (the id is a fresh timestamp). */
  predicate FreshDecisionId(g: Graph, id: string) {
    forall k :: 0 <= k < |g.nodes| ==> !IsDecisionWithId(id, g.nodes[k])
  }

  /** The new decision is the first Decision with its id. */
  lemma CreatedDecisionFound(g: Graph, node: Node, pros: seq<string>, cons: seq<string>,
                             alts: seq<string>, altStamps: seq<string>, now: int)
    requires |altStamps| == |alts| && node.Decision? && FreshDecisionId(g, node.id)
    ensures var f := CreateDecisionGraph(g, node, pros, cons, alts, altStamps, now);
      |g.nodes| < |f.nodes| && f.nodes[|g.nodes|] == node && FindDecision(f, node.id) == Some(|g.nodes|)
  {
    var d := |g.nodes|;
    var g1 := CreateDecisionNode(g, node);
    var g2 := WithArguments(g1, d, Pro, BASED_ON, pros);
    var g3 := WithArguments(g2, d, Con, CONSIDERED, cons);
    var f := AddAlternatives(g3, d, alts, altStamps, now);
    assert g3.nodes[..d + 1] == g.nodes + [node];
    assert f.nodes[..d + 1] == g3.nodes[..d + 1];
    DecisionFoundOfLayout(g, f, node);
  }

  /** A graph whose nodes begin with those of `g` and then `node` finds `node` by
      its id when no node of `g` carries it. */
  lemma DecisionFoundOfLayout(g: Graph, f: Graph, node: Node)
    requires node.Decision? && FreshDecisionId(g, node.id)
    requires |f.nodes| > |g.nodes| && f.nodes[..|g.nodes| + 1] == g.nodes + [node]
    ensures f.nodes[|g.nodes|] == node && FindDecision(f, node.id) == Some(|g.nodes|)
  {
    var d := |g.nodes|;
    assert f.nodes[d] == f.nodes[..d + 1][d];
    forall k | 0 <= k < d ensures !IsDecisionWithId(node.id, f.nodes[k]) {
      assert f.nodes[k] == f.nodes[..d + 1][k] == g.nodes[k];
    }
  }

  /** The final graph's nodes begin with the nodes before, the decision and its
      arguments. */
  lemma CreatedNodes(g: Graph, node: Node, pros: seq<string>, cons: seq<string>,
                     alts: seq<string>, altStamps: seq<string>, now: int)
    requires |altStamps| == |alts|
    ensures var f := CreateDecisionGraph(g, node, pros, cons, alts, altStamps, now);
      var d := |g.nodes|;
      && |f.nodes| >= d + 1 + |pros| + |cons|
      && (forall i :: 0 <= i < |pros| ==> f.nodes[d + 1 + i] == Argument(Pro, pros[i], i))
      && (forall i :: 0 <= i < |cons| ==> f.nodes[d + 1 + |pros| + i] == Argument(Con, cons[i], i))
  {
    var d := |g.nodes|;
    var g3 := WithArguments(WithArguments(CreateDecisionNode(g, node), d, Pro, BASED_ON, pros), d, Con, CONSIDERED, cons);
    var f := CreateDecisionGraph(g, node, pros, cons, alts, altStamps, now);
    assert f.nodes[..|g3.nodes|] == g3.nodes;
    assert g3.nodes == g.nodes + [node] + ArgumentNodes(Pro, pros) + ArgumentNodes(Con, cons);
    forall i | 0 <= i < |pros| ensures f.nodes[d + 1 + i] == Argument(Pro, pros[i], i) {
      assert f.nodes[d + 1 + i] == g3.nodes[d + 1 + i];
    }
    forall i | 0 <= i < |cons| ensures f.nodes[d + 1 + |pros| + i] == Argument(Con, cons[i], i) {
      assert f.nodes[d + 1 + |pros| + i] == g3.nodes[d + 1 + |pros| + i];
    }
  }

  /** The final graph's edges: those before, the pro edges, the con edges and the
      alternative edges, the last all labelled CHOSEN_OVER. */
  lemma CreatedEdges(g: Graph, node: Node, pros: seq<string>, cons: seq<string>,
                     alts: seq<string>, altStamps: seq<string>, now: int)
    requires |altStamps| == |alts|
    ensures var d := |g.nodes|;
      var f := CreateDecisionGraph(g, node, pros, cons, alts, altStamps, now);
      var m := |g.edges| + |pros| + |cons|;
      && |f.edges| >= m
      && f.edges == g.edges + ArgumentEdges(d, BASED_ON, d + 1, |pros|)
                    + ArgumentEdges(d, CONSIDERED, d + 1 + |pros|, |cons|) + f.edges[m..]
      && forall k :: m <= k < |f.edges| ==> AltEdge(f.nodes, f.edges[k], d, alts)
  {
    var d := |g.nodes|;
    var g3 := WithArguments(WithArguments(CreateDecisionNode(g, node), d, Pro, BASED_ON, pros), d, Con, CONSIDERED, cons);
    var f := CreateDecisionGraph(g, node, pros, cons, alts, altStamps, now);
    assert f.edges == f.edges[..|g3.edges|] + f.edges[|g3.edges|..];
    AlternativesSound(g3, d, alts, altStamps, now);
  }

  /** Over the four blocks, only the argument blocks can contribute. */
  lemma {:induction false} BlockTargets(nodes: seq<Node>, e0: seq<Edge>, ePro: seq<Edge>, eCon: seq<Edge>, eAlt: seq<Edge>,
                     d: nat, rel: string, w: Target)
    requires Targets(nodes, e0, d, rel, w) == [] && Targets(nodes, eAlt, d, rel, w) == []
    ensures Targets(nodes, e0 + ePro + eCon + eAlt, d, rel, w)
         == Targets(nodes, ePro, d, rel, w) + Targets(nodes, eCon, d, rel, w)
  {
    var a := e0 + ePro;
    var b := a + eCon;
    TargetsAppend(nodes, e0, ePro, d, rel, w);
    TargetsAppend(nodes, a, eCon, d, rel, w);
    TargetsAppend(nodes, b, eAlt, d, rel, w);
  }

  /** Over edges laid out as `create_decision` lays them out, each argument label
      reaches exactly its loop's texts. */
  lemma ArgumentsFromBlocks(nodes: seq<Node>, es: seq<Edge>, e0: seq<Edge>, eAlt: seq<Edge>, d: nat,
                            base: nat, pros: seq<string>, cons: seq<string>, kind: ArgKind)
    requires es == e0 + ArgumentEdges(d, BASED_ON, base, |pros|) + ArgumentEdges(d, CONSIDERED, base + |pros|, |cons|) + eAlt
    requires forall k :: 0 <= k < |e0| ==> e0[k].src != d
    requires forall k :: 0 <= k < |eAlt| ==> eAlt[k].rel == CHOSEN_OVER
    requires base + |pros| + |cons| <= |nodes|
    requires forall i :: 0 <= i < |pros| ==> nodes[base + i] == Argument(Pro, pros[i], i)
    requires forall i :: 0 <= i < |cons| ==> nodes[base + |pros| + i] == Argument(Con, cons[i], i)
    ensures var rel := if kind == Pro then BASED_ON else CONSIDERED;
      var w := if kind == Pro then ProArgument else ConArgument;
      Targets(nodes, es, d, rel, w) == if kind == Pro then pros else cons
  {
    var ePro := ArgumentEdges(d, BASED_ON, base, |pros|);
    var eCon := ArgumentEdges(d, CONSIDERED, base + |pros|, |cons|);
    if kind == Pro {
      TargetsNone(nodes, e0, d, BASED_ON, ProArgument);
      TargetsNone(nodes, eAlt, d, BASED_ON, ProArgument);
      TargetsNone(nodes, eCon, d, BASED_ON, ProArgument);
      BlockTargets(nodes, e0, ePro, eCon, eAlt, d, BASED_ON, ProArgument);
      ArgumentsReach(nodes, base, d, Pro, BASED_ON, ProArgument, pros);
      assert Targets(nodes, es, d, BASED_ON, ProArgument) == pros + [];
    } else {
      ConsFromBlocks(nodes, es, e0, ePro, eCon, eAlt, d, base, pros, cons);
    }
  }

  /** The CONSIDERED half of `ArgumentsFromBlocks`. */
  lemma ConsFromBlocks(nodes: seq<Node>, es: seq<Edge>, e0: seq<Edge>, ePro: seq<Edge>, eCon: seq<Edge>, eAlt: seq<Edge>,
                       d: nat, base: nat, pros: seq<string>, cons: seq<string>)
    requires ePro == ArgumentEdges(d, BASED_ON, base, |pros|)
    requires eCon == ArgumentEdges(d, CONSIDERED, base + |pros|, |cons|)
    requires es == e0 + ePro + eCon + eAlt
    requires forall k :: 0 <= k < |e0| ==> e0[k].src != d
    requires forall k :: 0 <= k < |eAlt| ==> eAlt[k].rel == CHOSEN_OVER
    requires base + |pros| + |cons| <= |nodes|
    requires forall i :: 0 <= i < |cons| ==> nodes[base + |pros| + i] == Argument(Con, cons[i], i)
    ensures Targets(nodes, es, d, CONSIDERED, ConArgument) == cons
  {
    TargetsNone(nodes, e0, d, CONSIDERED, ConArgument);
    TargetsNone(nodes, eAlt, d, CONSIDERED, ConArgument);
    TargetsNone(nodes, ePro, d, CONSIDERED, ConArgument);
    BlockTargets(nodes, e0, ePro, eCon, eAlt, d, CONSIDERED, ConArgument);
    ArgumentsReach(nodes, base + |pros|, d, Con, CONSIDERED, ConArgument, cons);
    assert Targets(nodes, es, d, CONSIDERED, ConArgument) == [] + cons;
  }

  /** The same for any graph laid out as `CreatedNodes` and `CreatedEdges` describe. */
  lemma {:induction false} ArgumentsOfLayout(g: Graph, f: Graph, pros: seq<string>, cons: seq<string>,
                                            alts: seq<string>, kind: ArgKind)
    requires EdgesInRange(g)
    requires |f.nodes| >= |g.nodes| + 1 + |pros| + |cons|
    requires forall i :: 0 <= i < |pros| ==> f.nodes[|g.nodes| + 1 + i] == Argument(Pro, pros[i], i)
    requires forall i :: 0 <= i < |cons| ==> f.nodes[|g.nodes| + 1 + |pros| + i] == Argument(Con, cons[i], i)
    requires |f.edges| >= |g.edges| + |pros| + |cons|
    requires f.edges == g.edges + ArgumentEdges(|g.nodes|, BASED_ON, |g.nodes| + 1, |pros|)
                        + ArgumentEdges(|g.nodes|, CONSIDERED, |g.nodes| + 1 + |pros|, |cons|)
                        + f.edges[|g.edges| + |pros| + |cons|..]
    requires forall k :: |g.edges| + |pros| + |cons| <= k < |f.edges| ==> AltEdge(f.nodes, f.edges[k], |g.nodes|, alts)
    ensures var rel := if kind == Pro then BASED_ON else CONSIDERED;
      var w := if kind == Pro then ProArgument else ConArgument;
      Targets(f.nodes, f.edges, |g.nodes|, rel, w) == if kind == Pro then pros else cons
  {
    var m := |g.edges| + |pros| + |cons|;
    AltBlockLabels(f, m, |g.nodes|, alts);
    OldEdgesLeaveOlderNodes(g);
    ArgumentsFromBlocks(f.nodes, f.edges, g.edges, f.edges[m..], |g.nodes|, |g.nodes| + 1, pros, cons, kind);
  }

  /** The edges of the alternatives block all carry the CHOSEN_OVER label. */
  lemma AltBlockLabels(f: Graph, m: nat, d: nat, alts: seq<string>)
    requires m <= |f.edges|
    requires forall k :: m <= k < |f.edges| ==> AltEdge(f.nodes, f.edges[k], d, alts)
    ensures forall k :: 0 <= k < |f.edges[m..]| ==> f.edges[m..][k].rel == CHOSEN_OVER
  {
    forall k | 0 <= k < |f.edges[m..]| ensures f.edges[m..][k].rel == CHOSEN_OVER {
      assert f.edges[m..][k] == f.edges[m + k];
    }
  }

  /** In a graph whose edges join its nodes, no edge leaves the next node to be created. */
  lemma OldEdgesLeaveOlderNodes(g: Graph)
    requires EdgesInRange(g)
    ensures forall k :: 0 <= k < |g.edges| ==> g.edges[k].src != |g.nodes|
  {
  }

  /** Reading one kind of argument back in the final graph gives that loop's texts
      in order. */
  lemma {:induction false} CreatedArgumentsOf(g: Graph, node: Node, pros: seq<string>, cons: seq<string>,
                           alts: seq<string>, altStamps: seq<string>, now: int, kind: ArgKind)
    requires EdgesInRange(g) && |altStamps| == |alts|
    ensures var f := CreateDecisionGraph(g, node, pros, cons, alts, altStamps, now);
      var rel := if kind == Pro then BASED_ON else CONSIDERED;
      var w := if kind == Pro then ProArgument else ConArgument;
      Targets(f.nodes, f.edges, |g.nodes|, rel, w) == if kind == Pro then pros else cons
  {
    var f := CreateDecisionGraph(g, node, pros, cons, alts, altStamps, now);
    CreatedEdges(g, node, pros, cons, alts, altStamps, now);
    CreatedNodes(g, node, pros, cons, alts, altStamps, now);
    ArgumentsOfLayout(g, f, pros, cons, alts, kind);
  }

  lemma {:induction false} ArgumentsReach(nodes: seq<Node>, base: nat, d: nat, kind: ArgKind, rel: string, w: Target, texts: seq<string>)
    requires w == (if kind == Pro then ProArgument else ConArgument)
    requires base + |texts| <= |nodes|
    requires forall i :: 0 <= i < |texts| ==> nodes[base + i] == Argument(kind, texts[i], i)
    ensures Targets(nodes, ArgumentEdges(d, rel, base, |texts|), d, rel, w) == texts
  {
    if texts != [] {
      var n := |texts| - 1;
      var es := ArgumentEdges(d, rel, base, |texts|);
      ArgumentsReach(nodes, base, d, kind, rel, w, texts[..n]);
      assert es[..n] == ArgumentEdges(d, rel, base, n);
      assert texts == texts[..n] + [texts[n]];
    }
  }

  /** In the created graph, every CHOSEN_OVER edge out of the new decision is one of
      the alternatives' edges: the old edges leave older nodes and the argument
      edges carry other labels. */
  lemma ChosenOverInAltBlock(g: Graph, node: Node, pros: seq<string>, cons: seq<string>,
                             alts: seq<string>, altStamps: seq<string>, now: int, k: nat)
    requires EdgesInRange(g) && |altStamps| == |alts|
    requires var f := CreateDecisionGraph(g, node, pros, cons, alts, altStamps, now);
      k < |f.edges| && f.edges[k].src == |g.nodes| && f.edges[k].rel == CHOSEN_OVER
    ensures var f := CreateDecisionGraph(g, node, pros, cons, alts, altStamps, now);
      AltEdge(f.nodes, f.edges[k], |g.nodes|, alts)
  {
    var f := CreateDecisionGraph(g, node, pros, cons, alts, altStamps, now);
    CreatedEdges(g, node, pros, cons, alts, altStamps, now);
    ChosenOverOfLayout(g, f, pros, cons, alts, k);
  }

  /** The same for any graph whose edges are laid out as `CreatedEdges` describes. */
  lemma ChosenOverOfLayout(g: Graph, f: Graph, pros: seq<string>, cons: seq<string>, alts: seq<string>, k: nat)
    requires EdgesInRange(g)
    requires |f.edges| >= |g.edges| + |pros| + |cons|
    requires f.edges == g.edges + ArgumentEdges(|g.nodes|, BASED_ON, |g.nodes| + 1, |pros|)
                        + ArgumentEdges(|g.nodes|, CONSIDERED, |g.nodes| + 1 + |pros|, |cons|)
                        + f.edges[|g.edges| + |pros| + |cons|..]
    requires forall i :: |g.edges| + |pros| + |cons| <= i < |f.edges| ==> AltEdge(f.nodes, f.edges[i], |g.nodes|, alts)
    requires k < |f.edges| && f.edges[k].src == |g.nodes| && f.edges[k].rel == CHOSEN_OVER
    ensures AltEdge(f.nodes, f.edges[k], |g.nodes|, alts)
  {
    var d := |g.nodes|;
    var m := |g.edges| + |pros| + |cons|;
    var e2 := ArgumentEdges(d, BASED_ON, d + 1, |pros|);
    var e3 := ArgumentEdges(d, CONSIDERED, d + 1 + |pros|, |cons|);
    BlockIndex(f.edges, g.edges, e2, e3, f.edges[m..]);
  }

  /** Where the entries of three blocks sit in their concatenation with a rest. */
  lemma BlockIndex(s: seq<Edge>, a: seq<Edge>, b: seq<Edge>, c: seq<Edge>, rest: seq<Edge>)
    requires s == a + b + c + rest
    ensures forall i :: 0 <= i < |a| ==> s[i] == a[i]
    ensures forall i :: |a| <= i < |a| + |b| ==> s[i] == b[i - |a|]
    ensures forall i :: |a| + |b| <= i < |a| + |b| + |c| ==> s[i] == c[i - |a| - |b|]
  {
  }

  /** The alternatives read back from the final graph are exactly the alternatives. */
  lemma CreatedAlternatives(g: Graph, node: Node, pros: seq<string>, cons: seq<string>,
                            alts: seq<string>, altStamps: seq<string>, now: int, x: string)
    requires EdgesInRange(g) && |altStamps| == |alts|
    ensures var f := CreateDecisionGraph(g, node, pros, cons, alts, altStamps, now);
      x in Targets(f.nodes, f.edges, |g.nodes|, CHOSEN_OVER, AnyDecision) <==> x in alts
  {
    var d := |g.nodes|;
    var f := CreateDecisionGraph(g, node, pros, cons, alts, altStamps, now);
    TargetsMembers(f.nodes, f.edges, d, CHOSEN_OVER, AnyDecision, x);
    if x in Targets(f.nodes, f.edges, d, CHOSEN_OVER, AnyDecision) {
      var k :| 0 <= k < |f.edges| && Reaches(f.nodes, f.edges[k], d, CHOSEN_OVER, AnyDecision) && TextOf(f.nodes[f.edges[k].dst]) == x;
      ChosenOverInAltBlock(g, node, pros, cons, alts, altStamps, now, k);
    }
    if x in alts {
      var j :| 0 <= j < |alts| && alts[j] == x;
      AlternativesFromCreate(g, node, pros, cons, alts, altStamps, now, j);
    }
  }

  lemma AlternativesFromCreate(g: Graph, node: Node, pros: seq<string>, cons: seq<string>,
                               alts: seq<string>, altStamps: seq<string>, now: int, j: nat)
    requires |altStamps| == |alts| && j < |alts|
    ensures var f := CreateDecisionGraph(g, node, pros, cons, alts, altStamps, now);
      alts[j] in Targets(f.nodes, f.edges, |g.nodes|, CHOSEN_OVER, AnyDecision)
  {
    var d := |g.nodes|;
    var g3 := WithArguments(WithArguments(CreateDecisionNode(g, node), d, Pro, BASED_ON, pros), d, Con, CONSIDERED, cons);
    var f := CreateDecisionGraph(g, node, pros, cons, alts, altStamps, now);
    AlternativesComplete(g3, d, alts, altStamps, now, j);
    ChoseOverReaches(g3, f, d, alts[j]);
  }

  /** An alternative reached by an added CHOSEN_OVER edge is read back. */
  lemma ChoseOverReaches(before: Graph, after: Graph, d: nat, alt: string)
    requires ChoseOver(before, after, d, alt)
    ensures alt in Targets(after.nodes, after.edges, d, CHOSEN_OVER, AnyDecision)
  {
    var k :| |before.edges| <= k < |after.edges| && AltEdge(after.nodes, after.edges[k], d, [alt]);
    TargetsMembers(after.nodes, after.edges, d, CHOSEN_OVER, AnyDecision, alt);
    assert Reaches(after.nodes, after.edges[k], d, CHOSEN_OVER, AnyDecision) && TextOf(after.nodes[after.edges[k].dst]) == alt;
  }

  /** Creating a decision and reading its rationale back gives the distinct
      non-empty pros and cons in the order given, and exactly the non-empty
      alternatives. */
  lemma CreateThenRationale(g: Graph, stamp: string, text: string, userId: string, now: int,
                            metadata: Option<Metadata>, pros: seq<string>, cons: seq<string>,
                            alts: seq<string>, altStamps: seq<string>)
    requires EdgesInRange(g) && |altStamps| == |alts| && FreshDecisionId(g, DecisionId(stamp))
    ensures var node := DecisionNode(DecisionId(stamp), text, userId, now, metadata);
      var r := GetDecisionRationale(CreateDecisionGraph(g, node, pros, cons, alts, altStamps, now), DecisionId(stamp));
      && r.Explained?
      && r.rationale.decision == text && r.rationale.created == Some(now)
      && r.rationale.pros == NonEmpty(Distinct(pros))
      && r.rationale.cons == NonEmpty(Distinct(cons))
      && forall x :: x in r.rationale.alternativesConsidered <==> x in alts && x != ""
  {
    var node := DecisionNode(DecisionId(stamp), text, userId, now, metadata);
    var f := CreateDecisionGraph(g, node, pros, cons, alts, altStamps, now);
    CreatedDecisionFound(g, node, pros, cons, alts, altStamps, now);
    CreatedArgumentsOf(g, node, pros, cons, alts, altStamps, now, Pro);
    CreatedArgumentsOf(g, node, pros, cons, alts, altStamps, now, Con);
    forall x ensures x in Targets(f.nodes, f.edges, |g.nodes|, CHOSEN_OVER, AnyDecision) <==> x in alts {
      CreatedAlternatives(g, node, pros, cons, alts, altStamps, now, x);
    }
  }

  // ---------------------------------------------------------------------------
  // Creating a decision keeps the graph valid

  lemma AddAlternativeValid(g: Graph, d: nat, alt: string, altId: string, now: int)
    requires Valid(g) && d < |g.nodes|
    ensures Valid(AddAlternative(g, d, alt, altId, now))
  {
    var r := AddAlternative(g, d, alt, altId, now);
    forall e | 0 <= e < |r.edges| ensures r.edges[e].src < |r.nodes| && r.edges[e].dst < |r.nodes| {
      if e < |g.edges| {
        assert r.edges[e] == r.edges[..|g.edges|][e];
      } else {
        assert AltEdge(r.nodes, r.edges[e], d, [alt]);
      }
    }
    forall i | 0 <= i < |g.nodes| ensures r.nodes[i] == g.nodes[i] {
      assert r.nodes[i] == r.nodes[..|g.nodes|][i];
    }
  }

  lemma {:induction false} AddAlternativesValid(g: Graph, d: nat, alts: seq<string>, stamps: seq<string>, now: int)
    requires Valid(g) && d < |g.nodes| && |stamps| == |alts|
    ensures Valid(AddAlternatives(g, d, alts, stamps, now))
  {
    if alts != [] {
      var n := |alts| - 1;
      AddAlternativesValid(g, d, alts[..n], stamps[..n], now);
      AddAlternativeValid(AddAlternatives(g, d, alts[..n], stamps[..n], now), d, alts[n], AltId(stamps[n], alts[n]), now);
    }
  }

  lemma WithArgumentsValid(g: Graph, d: nat, kind: ArgKind, rel: string, texts: seq<string>)
    requires Valid(g) && d < |g.nodes|
    ensures Valid(WithArguments(g, d, kind, rel, texts))
  {
    var r := WithArguments(g, d, kind, rel, texts);
    forall e | 0 <= e < |r.edges| ensures r.edges[e].src < |r.nodes| && r.edges[e].dst < |r.nodes| {
      if e < |g.edges| {
        assert r.edges[e] == g.edges[e];
      }
    }
  }

  /** Decisions and Arguments are not keyed, so creating them keeps the keys of
      Memories and Components unique; every new edge joins existing nodes. */
  lemma CreateDecisionValid(g: Graph, node: Node, pros: seq<string>, cons: seq<string>,
                            alts: seq<string>, altStamps: seq<string>, now: int)
    requires Valid(g) && node.Decision? && |altStamps| == |alts|
    ensures Valid(CreateDecisionGraph(g, node, pros, cons, alts, altStamps, now))
  {
    var d := |g.nodes|;
    var g1 := CreateDecisionNode(g, node);
    var g2 := WithArguments(g1, d, Pro, BASED_ON, pros);
    WithArgumentsValid(g1, d, Pro, BASED_ON, pros);
    WithArgumentsValid(g2, d, Con, CONSIDERED, cons);
    AddAlternativesValid(WithArguments(g2, d, Con, CONSIDERED, cons), d, alts, altStamps, now);
  }
}
