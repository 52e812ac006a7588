/** The transitive downstream impact of a node, over declared and over all dependencies. */
module BlastRadius {
  import opened Graphs
  import opened CycleDetection

  datatype Origin = Declared | Observed

  datatype Dependency = Dependency(edge: Edge, origin: Origin)

  // ---- what the radius should be

  /** A dependency path with at least one edge leads from n to the target. */
  ghost predicate DependsOn(edges: seq<Edge>, n: Node, target: Node) {
    exists w :: PathTo(edges, w, n, target)
  }

  ghost predicate PathTo(edges: seq<Edge>, w: seq<Node>, n: Node, target: Node) {
    IsWalk(edges, w) && |w| >= 2 && w[0] == n && w[|w| - 1] == target
  }

  lemma Prepend(edges: seq<Edge>, m: Node, n: Node, target: Node)
    requires Edge(m, n) in edges && (n == target || DependsOn(edges, n, target))
    ensures DependsOn(edges, m, target)
  {
    if n == target {
      assert PathTo(edges, [m, n], m, target);
    } else {
      var w :| PathTo(edges, w, n, target);
      assert PathTo(edges, [m] + w, m, target);
    }
  }

  ghost predicate ClosedUnder(edges: seq<Edge>, affected: set<Node>, target: Node) {
    forall e :: e in edges && (e.target == target || e.target in affected) ==> e.source in affected
  }

  lemma {:induction false} ClosedCoversPath(edges: seq<Edge>, affected: set<Node>, w: seq<Node>, n: Node, target: Node)
    requires ClosedUnder(edges, affected, target) && PathTo(edges, w, n, target)
    ensures n in affected
  {
    assert Edge(w[0], w[1]) in edges;
    if |w| > 2 {
      var v := w[1..];
      forall i | 0 <= i < |v| - 1 ensures Edge(v[i], v[i + 1]) in edges { assert Edge(w[i + 1], w[i + 2]) in edges; }
      ClosedCoversPath(edges, affected, v, v[0], target);
    }
  }

  lemma {:induction false} MoreEdges(few: seq<Edge>, many: seq<Edge>, n: Node, target: Node)
    requires (forall e :: e in few ==> e in many) && DependsOn(few, n, target)
    ensures DependsOn(many, n, target)
  {
    var w :| PathTo(few, w, n, target);
    assert PathTo(many, w, n, target);
  }

  // ---- the search

  function Flip(edges: seq<Edge>): (r: seq<Edge>)
    ensures |r| == |edges| && forall i :: 0 <= i < |edges| ==> r[i] == Edge(edges[i].target, edges[i].source)
  {
    seq(|edges|, i requires 0 <= i < |edges| => Edge(edges[i].target, edges[i].source))
  }

  lemma FlipFacts(edges: seq<Edge>, m: Node, n: Node)
    ensures m in Targets(Flip(edges), n) <==> Edge(m, n) in edges
  {
    TargetsAreEdges(Flip(edges), n, m);
    var f := Flip(edges);
    if Edge(n, m) in f {
      var i :| 0 <= i < |f| && f[i] == Edge(n, m);
      assert edges[i] == Edge(m, n);
    }
    if Edge(m, n) in edges {
      var i :| 0 <= i < |edges| && edges[i] == Edge(m, n);
      assert f[i] == Edge(n, m);
    }
  }

  /** Every node reached so far has been queued, and those taken from the queue have handed on their dependants. */
  ghost predicate Searching(edges: seq<Edge>, target: Node, affected: set<Node>, queue: seq<Node>, done: set<Node>) {
    && affected <= Endpoints(edges)
    && (forall n :: n in affected ==> DependsOn(edges, n, target))
    && (forall n :: n in queue ==> n == target || n in affected)
    && (forall n :: n == target || n in affected ==> n in queue || n in done)
    && (forall e :: e in edges && e.target in done ==> e.source in affected)
  }

  /** The same with curr taken out and its first k dependants handed on. */
  ghost predicate Expanding(edges: seq<Edge>, target: Node, affected: set<Node>, queue: seq<Node>, done: set<Node>,
                            curr: Node, k: nat) {
    var ups := Targets(Flip(edges), curr);
    && Searching(edges, target, affected, [curr] + queue, done)
    && k <= |ups| && forall i :: 0 <= i < k ==> ups[i] in affected
  }

  lemma Hand(edges: seq<Edge>, target: Node, affected: set<Node>, queue: seq<Node>, done: set<Node>, curr: Node, k: nat)
    requires Expanding(edges, target, affected, queue, done, curr, k) && k < |Targets(Flip(edges), curr)|
    ensures var d := Targets(Flip(edges), curr)[k];
            && Expanding(edges, target, affected + {d}, queue + [d], done, curr, k + 1)
            && (d in affected ==> Expanding(edges, target, affected, queue, done, curr, k + 1))
            && d in Endpoints(edges)
  {
    var d := Targets(Flip(edges), curr)[k];
    FlipFacts(edges, d, curr);
    assert Edge(d, curr).source == d;
    assert curr in [curr] + queue;
    Prepend(edges, d, curr, target);
    assert [curr] + (queue + [d]) == ([curr] + queue) + [d];
  }

  lemma Expanded(edges: seq<Edge>, target: Node, affected: set<Node>, queue: seq<Node>, done: set<Node>, curr: Node)
    requires Expanding(edges, target, affected, queue, done, curr, |Targets(Flip(edges), curr)|)
    ensures Searching(edges, target, affected, queue, done + {curr})
  {
    forall e | e in edges && e.target == curr ensures e.source in affected {
      FlipFacts(edges, e.source, curr);
      assert Edge(e.source, curr) == e;
    }
    assert forall n :: n in queue ==> n in [curr] + queue;
  }

  lemma Shrinks(all: set<Node>, before: set<Node>, after: set<Node>)
    requires before <= after <= all
    ensures after != before ==> all - after < all - before
  {
  }

  /** Hands the dependants of curr on. */
  method Expand(edges: seq<Edge>, target: Node, ups: seq<Node>, ghost done: set<Node>, curr: Node, affected0: set<Node>, queue0: seq<Node>)
    returns (affected: set<Node>, queue: seq<Node>)
    requires ups == Targets(Flip(edges), curr) && Expanding(edges, target, affected0, queue0, done, curr, 0)
    ensures Expanding(edges, target, affected, queue, done, curr, |ups|)
    ensures affected0 <= affected && (affected == affected0 ==> |queue| == |queue0|)
  {
    affected, queue := affected0, queue0;
    for k := 0 to |ups|
      invariant Expanding(edges, target, affected, queue, done, curr, k)
      invariant affected0 <= affected && (affected == affected0 ==> |queue| == |queue0|)
    {
      Hand(edges, target, affected, queue, done, curr, k);
      if ups[k] !in affected {
        affected := affected + {ups[k]};
        queue := queue + [ups[k]];
      }
    }
  }

  /** Breadth-first over reversed edges: exactly the nodes from which a dependency path leads to the target. */
  method Affected(edges: seq<Edge>, target: Node) returns (affected: set<Node>)
    ensures forall n :: n in affected <==> DependsOn(edges, n, target)
  {
    var reverse, _ := BuildAdjacency(Flip(edges));
    var queue := [target];
    affected := {};
    ghost var done := {};
    while queue != []
      invariant Searching(edges, target, affected, queue, done)
      decreases Endpoints(edges) - affected, |queue|
    {
      var curr := queue[0];
      ghost var before := affected;
      assert queue == [curr] + queue[1..];
      queue := queue[1..];
      var ups := if curr in reverse then reverse[curr] else [];
      affected, queue := Expand(edges, target, ups, done, curr, affected, queue);
      Expanded(edges, target, affected, queue, done, curr);
      Shrinks(Endpoints(edges), before, affected);
      done := done + {curr};
    }
    SearchEnds(edges, target, affected, done);
  }

  lemma SearchEnds(edges: seq<Edge>, target: Node, affected: set<Node>, done: set<Node>)
    requires Searching(edges, target, affected, [], done)
    ensures forall n :: n in affected <==> DependsOn(edges, n, target)
  {
    forall n | DependsOn(edges, n, target) ensures n in affected {
      var w :| PathTo(edges, w, n, target);
      ClosedCoversPath(edges, affected, w, n, target);
    }
  }

  // ---- the risk level

  function Rank(criticality: string): nat {
    if criticality == "CRITICAL" then 4
    else if criticality == "HIGH" then 3
    else if criticality == "MEDIUM" then 2
    else if criticality == "LOW" then 1
    else 0
  }

  datatype Record = Bare | Rated(criticality: string)

  /** A node outside the topology counts as UNKNOWN, a listed node without the field as LOW. */
  function CriticalityOf(nodes: map<Node, Record>, n: Node): string {
    if n !in nodes then "UNKNOWN"
    else match nodes[n] case Bare => "LOW" case Rated(c) => c
  }

  /** The greatest criticality among the affected nodes and LOW. */
  ghost predicate IsRisk(nodes: map<Node, Record>, affected: set<Node>, risk: string) {
    && Rank(risk) >= 1
    && (risk == "LOW" || exists n :: n in affected && CriticalityOf(nodes, n) == risk)
    && forall n :: n in affected ==> Rank(CriticalityOf(nodes, n)) <= Rank(risk)
  }

  lemma RiskIsUnique(nodes: map<Node, Record>, affected: set<Node>, r: string, s: string)
    requires IsRisk(nodes, affected, r) && IsRisk(nodes, affected, s)
    ensures r == s
  {
    assert r != "LOW" ==> Rank(r) <= Rank(s);
    assert s != "LOW" ==> Rank(s) <= Rank(r);
  }

  ghost predicate SomeAffected(nodes: map<Node, Record>, affected: set<Node>, criticality: string) {
    exists n :: n in affected && n in nodes && nodes[n] == Rated(criticality)
  }

  /** The level in words: CRITICAL above HIGH above MEDIUM above LOW; whatever else a node claims counts as nothing, and so
      do nodes that are not listed. */
  lemma RiskExactly(nodes: map<Node, Record>, affected: set<Node>, risk: string)
    requires IsRisk(nodes, affected, risk)
    ensures risk == if SomeAffected(nodes, affected, "CRITICAL") then "CRITICAL"
                    else if SomeAffected(nodes, affected, "HIGH") then "HIGH"
                    else if SomeAffected(nodes, affected, "MEDIUM") then "MEDIUM"
                    else "LOW"
  {
    assert Rank("CRITICAL") == 4 && Rank("HIGH") == 3 && Rank("MEDIUM") == 2 && Rank("LOW") == 1;
  }

  /** The order in which the nodes are taken does not matter. */
  method RiskLevel(nodes: map<Node, Record>, affected: set<Node>) returns (risk: string)
    ensures IsRisk(nodes, affected, risk)
  {
    risk := "LOW";
    var rest := affected;
    while rest != {}
      invariant rest <= affected && IsRisk(nodes, affected - rest, risk)
    {
      var n :| n in rest;
      var crit := CriticalityOf(nodes, n);
      assert affected - (rest - {n}) == (affected - rest) + {n};
      if Rank(crit) > Rank(risk) {
        risk := crit;
      }
      rest := rest - {n};
    }
    assert affected - rest == affected;
  }

  function AllEdges(deps: seq<Dependency>): (r: seq<Edge>)
    ensures forall e :: e in r <==> exists d :: d in deps && d.edge == e
  {
    if deps == [] then []
    else
      assert deps == [deps[0]] + deps[1..];
      [deps[0].edge] + AllEdges(deps[1..])
  }

  function DeclaredOnly(deps: seq<Dependency>): (r: seq<Dependency>)
    ensures forall d :: d in r <==> d in deps && d.origin == Declared
  {
    if deps == [] then []
    else
      assert deps == [deps[0]] + deps[1..];
      (if deps[0].origin == Declared then [deps[0]] else []) + DeclaredOnly(deps[1..])
  }

  method CalculateBlastRadius(deps: seq<Dependency>, nodes: map<Node, Record>, target: Node)
    returns (declared: set<Node>, total: set<Node>, observedOnly: set<Node>, risk: string)
    ensures forall n :: n in declared <==> DependsOn(AllEdges(DeclaredOnly(deps)), n, target)
    ensures forall n :: n in total <==> DependsOn(AllEdges(deps), n, target)
    ensures declared <= total && observedOnly == total - declared
    ensures IsRisk(nodes, total, risk)
  {
    declared := Affected(AllEdges(DeclaredOnly(deps)), target);
    total := Affected(AllEdges(deps), target);
    observedOnly := total - declared;
    risk := RiskLevel(nodes, total);
    forall n | n in declared ensures n in total {
      MoreEdges(AllEdges(DeclaredOnly(deps)), AllEdges(deps), n, target);
    }
  }
}
