/** Finite directed multigraphs: walks, cycles and topological orders. */
module Graphs {
  type Node = string

  datatype Edge = Edge(source: Node, target: Node)

  ghost predicate IsWalk(edges: seq<Edge>, w: seq<Node>) {
    |w| > 0 && forall i :: 0 <= i < |w| - 1 ==> Edge(w[i], w[i + 1]) in edges
  }

  ghost predicate ClosedWalk(edges: seq<Edge>, w: seq<Node>) {
    IsWalk(edges, w) && |w| >= 2 && w[0] == w[|w| - 1]
  }

  ghost predicate Acyclic(edges: seq<Edge>) {
    forall w: seq<Node> :: !ClosedWalk(edges, w)
  }

  /** The targets of the edges that leave n, in the order of the edge list and with repetitions. */
  function Targets(edges: seq<Edge>, n: Node): seq<Node> {
    if edges == [] then []
    else
      var last := edges[|edges| - 1];
      Targets(edges[..|edges| - 1], n) + (if last.source == n then [last.target] else [])
  }

  lemma {:induction false} TargetsAreEdges(edges: seq<Edge>, n: Node, t: Node)
    ensures t in Targets(edges, n) <==> Edge(n, t) in edges
  {
    if edges != [] {
      TargetsAreEdges(edges[..|edges| - 1], n, t);
      assert edges == edges[..|edges| - 1] + [edges[|edges| - 1]];
    }
  }

  /** Every edge between listed nodes goes from a later to an earlier entry. */
  ghost predicate SuccessorsFirst(edges: seq<Edge>, order: seq<Node>) {
    forall i, t :: 0 <= i < |order| && Edge(order[i], t) in edges ==> t in order[..i]
  }

  ghost predicate Distinct(s: seq<Node>) {
    forall i, j :: 0 <= i < j < |s| ==> s[i] != s[j]
  }

  /** Along a walk that starts in such an order, positions decrease. */
  lemma {:induction false} WalkDescends(edges: seq<Edge>, order: seq<Node>, w: seq<Node>, p: nat)
    requires SuccessorsFirst(edges, order) && IsWalk(edges, w) && p < |order| && order[p] == w[0] && |w| >= 2
    ensures w[|w| - 1] in order[..p]
  {
    assert Edge(order[p], w[1]) in edges;
    var k :| 0 <= k < p && order[..p][k] == w[1];
    if |w| > 2 {
      forall i | 0 <= i < |w[1..]| - 1 ensures Edge(w[1..][i], w[1..][i + 1]) in edges {
        assert Edge(w[i + 1], w[i + 2]) in edges;
      }
      WalkDescends(edges, order, w[1..], k);
    }
  }

  /** A duplicate-free order of every source, successors first, leaves no closed walk. */
  lemma OrderExcludesCycles(edges: seq<Edge>, order: seq<Node>)
    requires SuccessorsFirst(edges, order) && Distinct(order)
    requires forall e :: e in edges ==> e.source in order
    ensures Acyclic(edges)
  {
    forall w: seq<Node> | ClosedWalk(edges, w) ensures false {
      assert Edge(w[0], w[1]) in edges;
      var p :| 0 <= p < |order| && order[p] == w[0];
      WalkDescends(edges, order, w, p);
    }
  }

  /** Every edge into a listed node comes from an earlier entry. */
  ghost predicate PredecessorsFirst(edges: seq<Edge>, order: seq<Node>) {
    forall i, m :: 0 <= i < |order| && Edge(m, order[i]) in edges ==> m in order[..i]
  }

  lemma {:induction false} WalkAscends(edges: seq<Edge>, order: seq<Node>, w: seq<Node>, p: nat)
    requires PredecessorsFirst(edges, order) && IsWalk(edges, w) && |w| >= 2 && p < |order| && order[p] == w[|w| - 1]
    ensures w[0] in order[..p]
  {
    var m := w[|w| - 2];
    assert Edge(m, order[p]) in edges;
    var k :| 0 <= k < p && order[..p][k] == m;
    if |w| > 2 {
      var v := w[..|w| - 1];
      forall i | 0 <= i < |v| - 1 ensures Edge(v[i], v[i + 1]) in edges { assert Edge(w[i], w[i + 1]) in edges; }
      WalkAscends(edges, order, v, k);
    }
  }

  lemma PredecessorOrderExcludesCycles(edges: seq<Edge>, order: seq<Node>)
    requires PredecessorsFirst(edges, order) && Distinct(order)
    requires forall e :: e in edges ==> e.target in order
    ensures Acyclic(edges)
  {
    forall w: seq<Node> | ClosedWalk(edges, w) ensures false {
      assert Edge(w[|w| - 2], w[|w| - 1]) in edges;
      var p :| 0 <= p < |order| && order[p] == w[|w| - 1];
      WalkAscends(edges, order, w, p);
    }
  }

  // ---- a finite set in which everyone has a predecessor contains a cycle

  ghost predicate HasPredecessorIn(edges: seq<Edge>, u: set<Node>, n: Node) {
    exists m :: m in u && Edge(m, n) in edges
  }

  /** Walk backwards, at least as many steps as asked. */
  lemma {:induction false} BackwardWalk(edges: seq<Edge>, u: set<Node>, n: Node, len: nat) returns (w: seq<Node>)
    requires n in u && forall m :: m in u ==> HasPredecessorIn(edges, u, m)
    ensures IsWalk(edges, w) && |w| == len + 1 && forall i :: 0 <= i < |w| ==> w[i] in u
  {
    if len == 0 {
      w := [n];
    } else {
      var v := BackwardWalk(edges, u, n, len - 1);
      assert HasPredecessorIn(edges, u, v[0]);
      var m :| m in u && Edge(m, v[0]) in edges;
      w := [m] + v;
    }
  }

  lemma {:induction false} DistinctFits(s: seq<Node>, u: set<Node>)
    requires Distinct(s) && forall i :: 0 <= i < |s| ==> s[i] in u
    ensures |s| <= |u|
  {
    if s != [] {
      var t := s[..|s| - 1];
      forall i | 0 <= i < |t| ensures t[i] in u - {s[|s| - 1]} { }
      DistinctFits(t, u - {s[|s| - 1]});
    }
  }

  lemma PredecessorsMakeCycle(edges: seq<Edge>, u: set<Node>)
    requires u != {} && forall m :: m in u ==> HasPredecessorIn(edges, u, m)
    ensures !Acyclic(edges)
  {
    var n :| n in u;
    var w := BackwardWalk(edges, u, n, |u|);
    if Distinct(w) { DistinctFits(w, u); }
    var i, j :| 0 <= i < j < |w| && w[i] == w[j];
    var c := w[i..j + 1];
    assert ClosedWalk(edges, c);
  }
}
