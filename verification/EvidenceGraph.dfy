/** The offline verifier's acyclicity check and lineage trace. */
module EvidenceGraph {
  import opened Graphs
  import opened CycleDetection

  /** An edge as the file spells it; a missing field and an empty one are both falsy. */
  datatype RawEdge = RawEdge(from: Node, source: Node, to: Node, target: Node)

  function SourceOf(e: RawEdge): Node { if e.from != "" then e.from else e.source }
  function TargetOf(e: RawEdge): Node { if e.to != "" then e.to else e.target }

  function Resolved(raw: seq<RawEdge>): (r: seq<Edge>)
    ensures |r| == |raw| && forall i :: 0 <= i < |raw| ==> r[i] == Edge(SourceOf(raw[i]), TargetOf(raw[i]))
  {
    if raw == [] then [] else Resolved(raw[..|raw| - 1]) + [Edge(SourceOf(raw[|raw| - 1]), TargetOf(raw[|raw| - 1]))]
  }

  datatype Verdict = MissingSource(n: Node) | MissingTarget(n: Node) | Cyclic(visited: nat) | Sound

  ghost predicate EndpointsIn(nodes: seq<Node>, edges: seq<Edge>) {
    forall e :: e in edges ==> e.source in nodes && e.target in nodes
  }

  // ---- counting the edges into a node from sources not yet visited

  function InDegree(edges: seq<Edge>, done: set<Node>, n: Node): nat {
    if edges == [] then 0
    else
      var last := edges[|edges| - 1];
      InDegree(edges[..|edges| - 1], done, n) + (if last.target == n && last.source !in done then 1 else 0)
  }

  lemma {:induction false} InDegreeAfter(edges: seq<Edge>, done: set<Node>, curr: Node, n: Node)
    requires curr !in done
    ensures InDegree(edges, done, n) == InDegree(edges, done + {curr}, n) + multiset(Targets(edges, curr))[n]
  {
    if edges != [] { InDegreeAfter(edges[..|edges| - 1], done, curr, n); }
  }

  lemma {:induction false} InDegreePositive(edges: seq<Edge>, done: set<Node>, n: Node)
    ensures InDegree(edges, done, n) > 0 <==> exists m :: m !in done && Edge(m, n) in edges
  {
    if edges != [] {
      var front, last := edges[..|edges| - 1], edges[|edges| - 1];
      InDegreePositive(front, done, n);
      assert edges == front + [last];
      if last.target == n && last.source !in done { assert Edge(last.source, n) in edges; }
    }
  }

  /** Progress of the sort: done lists the visited nodes, in order. */
  ghost predicate Sorted(nodes: seq<Node>, edges: seq<Edge>, inDegree: map<Node, int>, done: seq<Node>, queue: seq<Node>) {
    && (forall n :: n in nodes ==> n in inDegree && inDegree[n] == InDegree(edges, Elements(done), n))
    && Partition(nodes, inDegree, done, queue)
    && PredecessorsFirst(edges, done)
  }

  /** Visited and waiting nodes are exactly those whose counter is zero. */
  ghost predicate Partition(nodes: seq<Node>, inDegree: map<Node, int>, done: seq<Node>, queue: seq<Node>) {
    && Distinct(done + queue)
    && (forall n :: n in done + queue <==> n in nodes && n in inDegree && inDegree[n] == 0)
  }

  /** Midway through the neighbors of curr, the first k counted off. */
  ghost predicate Relaxing(nodes: seq<Node>, edges: seq<Edge>, inDegree: map<Node, int>, done: seq<Node>, curr: Node, k: nat) {
    && k <= |Targets(edges, curr)|
    && (forall n :: n in nodes ==> n in inDegree)
    && (forall n :: n in nodes ==> inDegree[n] == InDegree(edges, Elements(done), n) - multiset(Targets(edges, curr)[..k])[n])
  }

  // ---- the steps of the sort

  lemma Popped(nodes: seq<Node>, edges: seq<Edge>, inDegree: map<Node, int>, done: seq<Node>, queue: seq<Node>)
    requires Sorted(nodes, edges, inDegree, done, queue) && queue != []
    ensures var curr := queue[0];
            && curr !in done && PredecessorsFirst(edges, done + [curr])
            && Partition(nodes, inDegree, done + [curr], queue[1..])
            && Relaxing(nodes, edges, inDegree, done, curr, 0)
  {
    var curr := queue[0];
    assert done + queue == (done + [curr]) + queue[1..];
    assert (done + queue)[|done|] == curr;
    assert curr in done + queue;
    assert Targets(edges, curr)[..0] == [];
    forall k | 0 <= k < |done| ensures done[k] != curr { assert (done + queue)[k] == done[k]; }
    InDegreePositive(edges, Elements(done), curr);
    VisitNext(edges, done, curr);
  }

  lemma VisitNext(edges: seq<Edge>, done: seq<Node>, curr: Node)
    requires PredecessorsFirst(edges, done) && forall m :: Edge(m, curr) in edges ==> m in done
    ensures PredecessorsFirst(edges, done + [curr])
  {
    var order := done + [curr];
    forall i, m | 0 <= i < |order| && Edge(m, order[i]) in edges ensures m in order[..i] {
      if i == |done| { assert order[..i] == done; } else { assert order[..i] == done[..i]; }
    }
  }

  lemma TargetListed(nodes: seq<Node>, edges: seq<Edge>, curr: Node, k: nat)
    requires EndpointsIn(nodes, edges) && k < |Targets(edges, curr)|
    ensures Targets(edges, curr)[k] in nodes
  {
    TargetsAreEdges(edges, curr, Targets(edges, curr)[k]);
  }

  lemma CountsOff(ts: seq<Node>, k: nat, n: Node)
    requires k < |ts|
    ensures multiset(ts[..k + 1])[n] == multiset(ts[..k])[n] + (if ts[k] == n then 1 else 0)
    ensures multiset(ts[..k + 1])[n] <= multiset(ts)[n]
  {
    assert ts[..k + 1] == ts[..k] + [ts[k]];
    assert ts == ts[..k + 1] + ts[k + 1..];
  }

  /** One decrement: the counter was still positive, so the node was neither visited nor waiting. */
  lemma Decremented(nodes: seq<Node>, edges: seq<Edge>, inDegree: map<Node, int>, done: seq<Node>, curr: Node, k: nat)
    requires Relaxing(nodes, edges, inDegree, done, curr, k) && curr !in done
    requires k < |Targets(edges, curr)| && Targets(edges, curr)[k] in nodes
    ensures var n := Targets(edges, curr)[k];
            && inDegree[n] > 0 && Relaxing(nodes, edges, inDegree[n := inDegree[n] - 1], done, curr, k + 1)
  {
    var ts := Targets(edges, curr);
    forall n | n in nodes ensures multiset(ts[..k + 1])[n] == multiset(ts[..k])[n] + (if ts[k] == n then 1 else 0) {
      CountsOff(ts, k, n);
    }
    CountsOff(ts, k, ts[k]);
    InDegreeAfter(edges, Elements(done), curr, ts[k]);
  }

  lemma Repartition(nodes: seq<Node>, inDegree: map<Node, int>, done: seq<Node>, queue: seq<Node>, n: Node)
    requires Partition(nodes, inDegree, done, queue) && n in nodes && n in inDegree && inDegree[n] > 0
    ensures Partition(nodes, inDegree[n := inDegree[n] - 1], done, if inDegree[n] == 1 then queue + [n] else queue)
  {
    assert n !in done + queue;
    assert done + (queue + [n]) == (done + queue) + [n];
  }

  lemma Relaxed(nodes: seq<Node>, edges: seq<Edge>, inDegree: map<Node, int>, done: seq<Node>, curr: Node)
    requires curr !in done && Relaxing(nodes, edges, inDegree, done, curr, |Targets(edges, curr)|)
    ensures forall n :: n in nodes ==> inDegree[n] == InDegree(edges, Elements(done + [curr]), n)
  {
    var ts := Targets(edges, curr);
    assert ts[..|ts|] == ts;
    assert Elements(done + [curr]) == Elements(done) + {curr};
    forall n | n in nodes ensures inDegree[n] == InDegree(edges, Elements(done + [curr]), n) {
      InDegreeAfter(edges, Elements(done), curr, n);
    }
  }

  lemma {:induction false} DistinctCount(s: seq<Node>)
    requires Distinct(s)
    ensures |Elements(s)| == |s|
  {
    if s != [] {
      var t, n := s[..|s| - 1], s[|s| - 1];
      DistinctCount(t);
      assert Elements(s) == Elements(t) + {n};
    }
  }

  lemma Fits(nodes: seq<Node>, inDegree: map<Node, int>, done: seq<Node>, queue: seq<Node>)
    requires Distinct(nodes) && Partition(nodes, inDegree, done, queue)
    ensures |done| + |queue| <= |nodes|
  {
    var both := done + queue;
    forall i | 0 <= i < |both| ensures both[i] in Elements(nodes) { assert both[i] in both; }
    DistinctFits(both, Elements(nodes));
    DistinctCount(nodes);
  }

  /** When the queue runs dry, everything has been visited exactly when there is no cycle. */
  lemma RunsDry(nodes: seq<Node>, edges: seq<Edge>, inDegree: map<Node, int>, done: seq<Node>)
    requires Distinct(nodes) && EndpointsIn(nodes, edges) && Sorted(nodes, edges, inDegree, done, [])
    ensures |done| == |nodes| <==> Acyclic(edges)
  {
    assert done + [] == done;
    DistinctCount(done);
    DistinctCount(nodes);
    var rest := Elements(nodes) - Elements(done);
    assert Elements(done) <= Elements(nodes);
    assert |Elements(nodes)| == |Elements(done)| + |rest| by { assert Elements(nodes) == Elements(done) + rest; }
    if rest == {} {
      assert forall n :: n in nodes ==> n in Elements(nodes);
      PredecessorOrderExcludesCycles(edges, done);
    } else {
      forall n | n in rest ensures HasPredecessorIn(edges, rest, n) {
        InDegreePositive(edges, Elements(done), n);
        var m :| m !in Elements(done) && Edge(m, n) in edges;
        assert Edge(m, n).source in nodes;
      }
      PredecessorsMakeCycle(edges, rest);
    }
  }

  lemma InitialStep(nodes: seq<Node>, inDegree: map<Node, int>, i: nat, queue: seq<Node>)
    requires Distinct(nodes) && i < |nodes| && nodes[i] in inDegree && Partition(nodes[..i], inDegree, [], queue)
    ensures Partition(nodes[..i + 1], inDegree, [], if inDegree[nodes[i]] == 0 then queue + [nodes[i]] else queue)
  {
    assert nodes[..i + 1] == nodes[..i] + [nodes[i]];
    assert [] + queue == queue && [] + (queue + [nodes[i]]) == queue + [nodes[i]];
    assert nodes[i] !in nodes[..i];
  }

  /** The nodes that start with no incoming edge. */
  method InitialQueue(nodes: seq<Node>, edges: seq<Edge>, inDegree: map<Node, int>) returns (queue: seq<Node>)
    requires Distinct(nodes)
    requires forall n :: n in nodes ==> n in inDegree && inDegree[n] == InDegree(edges, {}, n)
    ensures Sorted(nodes, edges, inDegree, [], queue)
  {
    queue := [];
    for i := 0 to |nodes|
      invariant Partition(nodes[..i], inDegree, [], queue)
    {
      InitialStep(nodes, inDegree, i, queue);
      if inDegree[nodes[i]] == 0 {
        queue := queue + [nodes[i]];
      }
    }
    assert nodes[..|nodes|] == nodes;
    assert Elements([]) == {};
  }

  /** Kahn's loop; it visits every node exactly when the graph has no cycle. */
  method CountVisited(nodes: seq<Node>, edges: seq<Edge>, adj: map<Node, seq<Node>>, degrees: map<Node, int>)
    returns (count: nat)
    requires Distinct(nodes) && EndpointsIn(nodes, edges) && Groups(edges, adj)
    requires forall n :: n in nodes ==> n in degrees && degrees[n] == InDegree(edges, {}, n)
    ensures count <= |nodes|
    ensures count == |nodes| <==> Acyclic(edges)
  {
    var queue := InitialQueue(nodes, edges, degrees);
    var inDegree := degrees;
    count := 0;
    ghost var done := [];
    while queue != []
      invariant Sorted(nodes, edges, inDegree, done, queue) && count == |done|
      decreases |nodes| - count
    {
      Popped(nodes, edges, inDegree, done, queue);
      Fits(nodes, inDegree, done, queue);
      var curr := queue[0];
      queue := queue[1..];
      count := count + 1;
      var neighbors := if curr in adj then adj[curr] else [];
      for k := 0 to |neighbors|
        invariant neighbors == Targets(edges, curr)
        invariant Relaxing(nodes, edges, inDegree, done, curr, k)
        invariant Partition(nodes, inDegree, done + [curr], queue)
      {
        var n := neighbors[k];
        TargetListed(nodes, edges, curr, k);
        Decremented(nodes, edges, inDegree, done, curr, k);
        Repartition(nodes, inDegree, done + [curr], queue, n);
        inDegree := inDegree[n := inDegree[n] - 1];
        if inDegree[n] == 0 {
          queue := queue + [n];
        }
      }
      Relaxed(nodes, edges, inDegree, done, curr);
      done := done + [curr];
    }
    Fits(nodes, inDegree, done, queue);
    RunsDry(nodes, edges, inDegree, done);
  }

  // ---- endpoint checks

  predicate GoodEndpoint(nodes: seq<Node>, n: Node) { n != "" && n in nodes }

  predicate GoodEdge(nodes: seq<Node>, e: RawEdge) {
    GoodEndpoint(nodes, SourceOf(e)) && GoodEndpoint(nodes, TargetOf(e))
  }

  /** The first edge with a bad endpoint, its source examined before its target. */
  ghost predicate FirstBad(nodes: seq<Node>, raw: seq<RawEdge>, k: nat, v: Verdict) {
    && k < |raw| && (forall i :: 0 <= i < k ==> GoodEdge(nodes, raw[i])) && !GoodEdge(nodes, raw[k])
    && v == (if !GoodEndpoint(nodes, SourceOf(raw[k])) then MissingSource(SourceOf(raw[k])) else MissingTarget(TargetOf(raw[k])))
  }

  ghost predicate AllGood(nodes: seq<Node>, raw: seq<RawEdge>) {
    forall i :: 0 <= i < |raw| ==> GoodEdge(nodes, raw[i])
  }

  lemma AllGoodEndpoints(nodes: seq<Node>, raw: seq<RawEdge>)
    requires AllGood(nodes, raw)
    ensures EndpointsIn(nodes, Resolved(raw))
  {
    forall e | e in Resolved(raw) ensures e.source in nodes && e.target in nodes {
      var i :| 0 <= i < |raw| && Resolved(raw)[i] == e;
      assert GoodEdge(nodes, raw[i]);
    }
  }

  ghost predicate Counted(nodes: seq<Node>, edges: seq<Edge>, inDegree: map<Node, int>) {
    forall n :: n in nodes ==> n in inDegree && inDegree[n] == InDegree(edges, {}, n)
  }

  lemma ResolvedStep(raw: seq<RawEdge>, i: nat)
    requires i < |raw|
    ensures Resolved(raw[..i + 1]) == Resolved(raw[..i]) + [Edge(SourceOf(raw[i]), TargetOf(raw[i]))]
  {
    assert raw[..i + 1][..i] == raw[..i];
  }

  lemma CountedStep(nodes: seq<Node>, raw: seq<RawEdge>, i: nat, inDegree: map<Node, int>)
    requires i < |raw| && Counted(nodes, Resolved(raw[..i]), inDegree) && TargetOf(raw[i]) in nodes
    ensures var tgt := TargetOf(raw[i]);
            Counted(nodes, Resolved(raw[..i + 1]), inDegree[tgt := inDegree[tgt] + 1])
  {
    ResolvedStep(raw, i);
    var edges := Resolved(raw[..i + 1]);
    assert edges[..|edges| - 1] == Resolved(raw[..i]);
  }

  /** Either the verdict on the first bad edge, or all edges resolved and the in-degrees counted. */
  method ResolveEdges(nodes: seq<Node>, raw: seq<RawEdge>) returns (ok: bool, v: Verdict, edges: seq<Edge>, inDegree: map<Node, int>)
    ensures !ok ==> exists k :: FirstBad(nodes, raw, k, v)
    ensures ok ==> AllGood(nodes, raw) && edges == Resolved(raw) && Counted(nodes, edges, inDegree)
  {
    ok, v, edges, inDegree := true, Sound, [], map n | n in nodes :: 0;
    for i := 0 to |raw|
      invariant ok && AllGood(nodes, raw[..i])
      invariant edges == Resolved(raw[..i]) && Counted(nodes, edges, inDegree)
    {
      var src, tgt := SourceOf(raw[i]), TargetOf(raw[i]);
      if !GoodEndpoint(nodes, src) || !GoodEndpoint(nodes, tgt) {
        v := if !GoodEndpoint(nodes, src) then MissingSource(src) else MissingTarget(tgt);
        ok := false;
        FirstBadHere(nodes, raw, i, v);
        return;
      }
      CountedStep(nodes, raw, i, inDegree);
      ResolvedStep(raw, i);
      inDegree := inDegree[tgt := inDegree[tgt] + 1];
      edges := edges + [Edge(src, tgt)];
      AllGoodStep(nodes, raw, i);
    }
    assert raw[..|raw|] == raw;
  }

  lemma FirstBadHere(nodes: seq<Node>, raw: seq<RawEdge>, i: nat, v: Verdict)
    requires i < |raw| && AllGood(nodes, raw[..i]) && !GoodEdge(nodes, raw[i])
    requires v == (if !GoodEndpoint(nodes, SourceOf(raw[i])) then MissingSource(SourceOf(raw[i])) else MissingTarget(TargetOf(raw[i])))
    ensures FirstBad(nodes, raw, i, v)
  {
    forall j | 0 <= j < i ensures GoodEdge(nodes, raw[j]) { assert raw[..i][j] == raw[j]; }
  }

  lemma AllGoodStep(nodes: seq<Node>, raw: seq<RawEdge>, i: nat)
    requires i < |raw| && AllGood(nodes, raw[..i]) && GoodEdge(nodes, raw[i])
    ensures AllGood(nodes, raw[..i + 1])
  {
    var front := raw[..i + 1];
    forall j | 0 <= j < |front| ensures GoodEdge(nodes, front[j]) {
      if j < i { assert front[j] == raw[..i][j]; }
    }
  }

  /** The endpoint check followed by the acyclicity check. */
  method CheckDag(nodes: seq<Node>, raw: seq<RawEdge>) returns (v: Verdict)
    requires Distinct(nodes)
    ensures v.MissingSource? || v.MissingTarget? ==> exists k :: FirstBad(nodes, raw, k, v)
    ensures v.Cyclic? ==> AllGood(nodes, raw) && !Acyclic(Resolved(raw)) && v.visited < |nodes|
    ensures v.Sound? ==> AllGood(nodes, raw) && Acyclic(Resolved(raw))
  {
    var ok, bad, edges, inDegree := ResolveEdges(nodes, raw);
    if !ok { return bad; }
    AllGoodEndpoints(nodes, raw);
    var adj, _ := BuildAdjacency(edges);
    var count := CountVisited(nodes, edges, adj, inDegree);
    v := if count != |nodes| then Cyclic(count) else Sound;
  }

  // ---- tracing lineage backwards

  /** The first edge whose to or whose target field names curr. */
  predicate Inbound(e: RawEdge, curr: Node) { e.to == curr || e.target == curr }

  function FirstInbound(raw: seq<RawEdge>, curr: Node): (k: nat)
    ensures k <= |raw| && (forall i :: 0 <= i < k ==> !Inbound(raw[i], curr)) && (k < |raw| ==> Inbound(raw[k], curr))
    decreases |raw|
  {
    if raw == [] || Inbound(raw[0], curr) then 0
    else
      var k := FirstInbound(raw[1..], curr);
      assert forall i :: 0 <= i < |raw[1..]| ==> raw[1..][i] == raw[i + 1];
      k + 1
  }

  /** The next node of the trace; the empty name stands for Python's falsy end. */
  function Predecessor(raw: seq<RawEdge>, curr: Node): Node {
    var k := FirstInbound(raw, curr);
    if k < |raw| then SourceOf(raw[k]) else ""
  }

  ghost predicate Traces(raw: seq<RawEdge>, trace: seq<Node>) {
    forall i :: 0 <= i < |trace| - 1 ==> trace[i + 1] == Predecessor(raw, trace[i])
  }

  /** Each step of the trace goes to the source of the first inbound edge; no node repeats, and
      the trace stops only at a node without a named predecessor or before one it already holds. */
  method TraceLineage(raw: seq<RawEdge>, start: Node) returns (trace: seq<Node>)
    ensures start == "" <==> trace == []
    ensures trace != [] ==> trace[0] == start
    ensures Traces(raw, trace) && Distinct(trace) && "" !in trace
    ensures trace != [] ==> var next := Predecessor(raw, trace[|trace| - 1]); next == "" || next in trace
  {
    trace := [];
    var curr, visited: set<Node> := start, {};
    ghost var bound := Sources(raw) + {start};
    while curr != "" && curr !in visited
      invariant visited == Elements(trace) && visited <= bound && (curr == "" || curr in bound)
      invariant Tracing(raw, start, trace, curr)
      decreases bound - visited
    {
      TraceStep(raw, start, trace, curr);
      visited := visited + {curr};
      trace := trace + [curr];
      PredecessorIsSource(raw, curr);
      curr := Predecessor(raw, curr);
    }
  }

  /** A trace under way, with curr next. */
  ghost predicate Tracing(raw: seq<RawEdge>, start: Node, trace: seq<Node>, curr: Node) {
    && Traces(raw, trace) && Distinct(trace) && "" !in trace
    && (trace == [] ==> curr == start)
    && (trace != [] ==> trace[0] == start && curr == Predecessor(raw, trace[|trace| - 1]))
  }

  lemma TraceStep(raw: seq<RawEdge>, start: Node, trace: seq<Node>, curr: Node)
    requires Tracing(raw, start, trace, curr) && curr != "" && curr !in Elements(trace)
    ensures Tracing(raw, start, trace + [curr], Predecessor(raw, curr))
    ensures Elements(trace + [curr]) == Elements(trace) + {curr}
  {
  }

  ghost function Sources(raw: seq<RawEdge>): set<Node> { set e | e in raw :: SourceOf(e) }

  lemma PredecessorIsSource(raw: seq<RawEdge>, curr: Node)
    ensures Predecessor(raw, curr) == "" || Predecessor(raw, curr) in Sources(raw)
  {
    var k := FirstInbound(raw, curr);
    assert k < |raw| ==> raw[k] in raw;
  }

  /** No edge names its target in two different ways. */
  predicate SingleSpelling(raw: seq<RawEdge>) {
    forall i :: 0 <= i < |raw| ==> raw[i].to == "" || raw[i].target == "" || raw[i].to == raw[i].target
  }

  lemma ClosesWalk(edges: seq<Edge>, n: Node, w: seq<Node>)
    requires IsWalk(edges, w) && Edge(n, w[0]) in edges && w[|w| - 1] == n
    ensures !Acyclic(edges)
  {
    assert ClosedWalk(edges, [n] + w);
  }

  /** On a graph that passed the check, the trace is a backward walk to a node that no edge enters. */
  lemma {:induction false} LineageReachesRoot(nodes: seq<Node>, raw: seq<RawEdge>, trace: seq<Node>)
    requires AllGood(nodes, raw) && SingleSpelling(raw) && Acyclic(Resolved(raw))
    requires trace != [] && "" !in trace && Traces(raw, trace)
    requires var next := Predecessor(raw, trace[|trace| - 1]); next == "" || next in trace
    ensures IsWalk(Resolved(raw), Reversed(trace))
    ensures forall e :: e in Resolved(raw) ==> e.target != trace[|trace| - 1]
  {
    var edges := Resolved(raw);
    ReversedWalk(nodes, raw, trace);
    var last := trace[|trace| - 1];
    var next := Predecessor(raw, last);
    if next != "" {
      var k :| 0 <= k < |trace| && trace[k] == next;
      var back := trace[k..];
      ReversedWalk(nodes, raw, back);
      StepIsEdge(nodes, raw, last);
      ClosesWalk(edges, next, Reversed(back));
    }
    forall e | e in edges ensures e.target != last {
      if e.target == last { InboundFound(nodes, raw, e.source, last); }
    }
  }

  function Reversed(s: seq<Node>): (r: seq<Node>)
    ensures |r| == |s| && forall i :: 0 <= i < |s| ==> r[i] == s[|s| - 1 - i]
  {
    if s == [] then [] else [s[|s| - 1]] + Reversed(s[..|s| - 1])
  }

  lemma StepIsEdge(nodes: seq<Node>, raw: seq<RawEdge>, curr: Node)
    requires AllGood(nodes, raw) && SingleSpelling(raw) && curr != "" && Predecessor(raw, curr) != ""
    ensures Edge(Predecessor(raw, curr), curr) in Resolved(raw)
  {
    var k := FirstInbound(raw, curr);
    assert Resolved(raw)[k] == Edge(SourceOf(raw[k]), curr);
  }

  lemma InboundFound(nodes: seq<Node>, raw: seq<RawEdge>, m: Node, curr: Node)
    requires AllGood(nodes, raw) && Edge(m, curr) in Resolved(raw)
    ensures Predecessor(raw, curr) != ""
  {
    var j :| 0 <= j < |raw| && Resolved(raw)[j] == Edge(m, curr);
    assert Inbound(raw[j], curr);
    var k := FirstInbound(raw, curr);
    assert GoodEdge(nodes, raw[k]);
  }

  lemma ReversedWalk(nodes: seq<Node>, raw: seq<RawEdge>, trace: seq<Node>)
    requires AllGood(nodes, raw) && SingleSpelling(raw)
    requires trace != [] && "" !in trace && Traces(raw, trace)
    ensures IsWalk(Resolved(raw), Reversed(trace))
  {
    var w := Reversed(trace);
    forall i | 0 <= i < |w| - 1 ensures Edge(w[i], w[i + 1]) in Resolved(raw) {
      var j := |trace| - 2 - i;
      assert trace[j] in trace && trace[j + 1] in trace;
      StepIsEdge(nodes, raw, trace[j]);
    }
  }

  /** With both spellings on one edge the two passes disagree: the check follows to, the trace accepts target. */
  lemma SpellingsDisagree()
    ensures var raw := [RawEdge("A", "", "B", "C")];
            && Resolved(raw) == [Edge("A", "B")]
            && Predecessor(raw, "C") == "A" && Edge("A", "C") !in Resolved(raw)
  {
    var raw := [RawEdge("A", "", "B", "C")];
    assert Resolved(raw[..0]) == [];
    assert FirstInbound(raw, "C") == 0;
  }

  /** For one edge they agree on where it leads, for every node asked about, exactly when it does not have two spellings
      that differ. */
  lemma SpellingsAgreeIff(e: RawEdge)
    ensures (forall curr: Node :: curr != "" ==> (Inbound(e, curr) <==> curr == TargetOf(e)))
            <==> (e.to == "" || e.target == "" || e.to == e.target)
  {
    if e.to != "" && e.target != "" && e.to != e.target {
      assert Inbound(e, e.target) && e.target != TargetOf(e);
    }
  }

  /** from and to are preferred to source and target, which stand in for them when they are missing. */
  lemma SpellingPreference(a: Node, b: Node, c: Node, d: Node)
    ensures SourceOf(RawEdge(a, b, c, d)) == (if a == "" then b else a) && TargetOf(RawEdge(a, b, c, d)) == (if c == "" then d else c)
  {
  }
}
