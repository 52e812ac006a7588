/** Depth-first cycle detection over a topology's edge list. */
module CycleDetection {
  import opened Graphs

  function Elements(s: seq<Node>): set<Node> {
    set n | n in s
  }

  function Endpoints(edges: seq<Edge>): set<Node> {
    (set e | e in edges :: e.source) + (set e | e in edges :: e.target)
  }

  /** adj groups the targets by source. */
  ghost predicate Groups(edges: seq<Edge>, adj: map<Node, seq<Node>>) {
    && (forall n :: n in adj ==> adj[n] == Targets(edges, n))
    && (forall n :: n !in adj ==> Targets(edges, n) == [])
  }

  ghost predicate ListsSources(edges: seq<Edge>, keys: seq<Node>) {
    && (forall e :: e in edges ==> e.source in keys)
    && (forall n :: n in keys ==> n in Endpoints(edges))
  }

  method BuildAdjacency(edges: seq<Edge>) returns (adj: map<Node, seq<Node>>, keys: seq<Node>)
    ensures Groups(edges, adj) && ListsSources(edges, keys)
  {
    adj, keys := map[], [];
    for i := 0 to |edges|
      invariant Groups(edges[..i], adj) && ListsSources(edges[..i], keys)
      invariant forall n :: n in adj <==> n in keys
    {
      var src, tgt := edges[i].source, edges[i].target;
      GroupsStep(edges, i, adj, keys);
      if src in adj {
        adj := adj[src := adj[src] + [tgt]];
      } else {
        adj := adj[src := [tgt]];
        keys := keys + [src];
      }
    }
    assert edges[..|edges|] == edges;
  }

  lemma GroupsStep(edges: seq<Edge>, i: nat, adj: map<Node, seq<Node>>, keys: seq<Node>)
    requires i < |edges| && Groups(edges[..i], adj) && ListsSources(edges[..i], keys)
    requires forall n :: n in adj <==> n in keys
    ensures var src, tgt := edges[i].source, edges[i].target;
            && Groups(edges[..i + 1], adj[src := (if src in adj then adj[src] else []) + [tgt]])
            && ListsSources(edges[..i + 1], if src in adj then keys else keys + [src])
  {
    GroupsTargets(edges, i, adj);
    SourcesStep(edges, i, keys, if edges[i].source in adj then keys else keys + [edges[i].source]);
  }

  lemma SourcesStep(edges: seq<Edge>, i: nat, keys: seq<Node>, more: seq<Node>)
    requires i < |edges| && ListsSources(edges[..i], keys)
    requires more == keys + [edges[i].source] || (more == keys && edges[i].source in keys)
    ensures ListsSources(edges[..i + 1], more)
  {
    var a, b := edges[..i], edges[..i + 1];
    assert edges[i].source in more && forall n :: n in keys ==> n in more;
    forall e | e in b ensures e.source in more { EarlierOrLast(edges, i, e); }
    EndpointsGrow(edges, i);
    OnlyOneMore(keys, more, edges[i].source, Endpoints(a), Endpoints(b));
  }

  lemma EarlierOrLast(edges: seq<Edge>, i: nat, e: Edge)
    requires i < |edges| && e in edges[..i + 1]
    ensures e in edges[..i] || e == edges[i]
  {
    var k :| 0 <= k < |edges[..i + 1]| && edges[..i + 1][k] == e;
    assert k < i ==> edges[..i][k] == e;
  }

  lemma OnlyOneMore(keys: seq<Node>, more: seq<Node>, n: Node, a: set<Node>, b: set<Node>)
    requires (more == keys + [n] || more == keys) && a <= b && n in b && forall m :: m in keys ==> m in a
    ensures forall m :: m in more ==> m in b
  {
  }

  lemma GroupsTargets(edges: seq<Edge>, i: nat, adj: map<Node, seq<Node>>)
    requires i < |edges| && Groups(edges[..i], adj)
    ensures var src, tgt := edges[i].source, edges[i].target;
            Groups(edges[..i + 1], adj[src := (if src in adj then adj[src] else []) + [tgt]])
  {
    var src, tgt := edges[i].source, edges[i].target;
    var next := adj[src := (if src in adj then adj[src] else []) + [tgt]];
    forall n ensures Targets(edges[..i + 1], n) == if n in next then next[n] else [] {
      TargetsStep(edges, i, n);
    }
  }

  lemma TargetsStep(edges: seq<Edge>, i: nat, n: Node)
    requires i < |edges|
    ensures Targets(edges[..i + 1], n) == Targets(edges[..i], n) + (if edges[i].source == n then [edges[i].target] else [])
  {
    assert edges[..i + 1][..i] == edges[..i];
  }

  lemma EndpointsGrow(edges: seq<Edge>, i: nat)
    requires i < |edges|
    ensures Endpoints(edges[..i]) <= Endpoints(edges[..i + 1]) && edges[i].source in Endpoints(edges[..i + 1])
  {
    var a, b := edges[..i], edges[..i + 1];
    assert b[i] == edges[i] && b[i] in b;
    forall n | n in Endpoints(a) ensures n in Endpoints(b) {
      var k :| 0 <= k < |a| && (a[k].source == n || a[k].target == n);
      assert b[k] == a[k] && b[k] in b;
    }
  }

  /** What every step of the search keeps: finished lists the nodes whose search has ended, in that order. */
  ghost predicate Consistent(edges: seq<Edge>, visited: set<Node>, recStack: set<Node>, cycles: seq<seq<Node>>,
                             path: seq<Node>, finished: seq<Node>) {
    && visited <= Endpoints(edges)
    && recStack == Elements(path) && Distinct(path) && (path != [] ==> IsWalk(edges, path))
    && visited == recStack + Elements(finished) && recStack !! Elements(finished) && Distinct(finished)
    && (forall c :: c in cycles ==> ClosedWalk(edges, c))
    && (cycles == [] ==> SuccessorsFirst(edges, finished))
  }

  lemma Enter(edges: seq<Edge>, visited: set<Node>, recStack: set<Node>, cycles: seq<seq<Node>>,
              path: seq<Node>, finished: seq<Node>, node: Node)
    requires Consistent(edges, visited, recStack, cycles, path, finished)
    requires node in Endpoints(edges) && node !in visited && (path != [] ==> Edge(path[|path| - 1], node) in edges)
    ensures Consistent(edges, visited + {node}, recStack + {node}, cycles, path + [node], finished)
  {
    assert node !in Elements(path) && node !in Elements(finished);
  }

  /** The tail of the search path from a node on it, closed by an edge back to that node. */
  lemma Report(edges: seq<Edge>, path: seq<Node>, idx: nat, n: Node)
    requires IsWalk(edges, path) && idx < |path| && path[idx] == n && Edge(path[|path| - 1], n) in edges
    ensures ClosedWalk(edges, path[idx..] + [n])
  {
    var w := path[idx..] + [n];
    forall i | 0 <= i < |w| - 1 ensures Edge(w[i], w[i + 1]) in edges {
      if i < |w| - 2 { assert Edge(path[idx + i], path[idx + i + 1]) in edges; }
    }
  }

  lemma Leave(edges: seq<Edge>, visited: set<Node>, recStack: set<Node>, cycles: seq<seq<Node>>,
              path: seq<Node>, finished: seq<Node>, node: Node)
    requires Consistent(edges, visited, recStack, cycles, path + [node], finished)
    requires cycles == [] ==> DoneUpTo(Targets(edges, node), |Targets(edges, node)|, finished)
    ensures Consistent(edges, visited, recStack - {node}, cycles, path, finished + [node])
  {
    var full, order := path + [node], finished + [node];
    assert full[|path|] == node && forall i :: 0 <= i < |path| ==> full[i] == path[i];
    assert recStack - {node} == Elements(path);
    assert Elements(order) == Elements(finished) + {node};
    if path != [] {
      forall i | 0 <= i < |path| - 1 ensures Edge(path[i], path[i + 1]) in edges { assert Edge(full[i], full[i + 1]) in edges; }
    }
    if cycles == [] { AppendFinished(edges, finished, node); }
  }

  ghost predicate DoneUpTo(neighbors: seq<Node>, i: nat, finished: seq<Node>) {
    i <= |neighbors| && forall k :: 0 <= k < i ==> neighbors[k] in finished
  }

  lemma DoneGrows(neighbors: seq<Node>, i: nat, before: seq<Node>, after: seq<Node>)
    requires i < |neighbors| && before <= after
    ensures DoneUpTo(neighbors, i, before) && neighbors[i] in after ==> DoneUpTo(neighbors, i + 1, after)
  {
    assert forall n :: n in before ==> n in after;
  }

  lemma AppendFinished(edges: seq<Edge>, finished: seq<Node>, node: Node)
    requires SuccessorsFirst(edges, finished)
    requires DoneUpTo(Targets(edges, node), |Targets(edges, node)|, finished)
    ensures SuccessorsFirst(edges, finished + [node])
  {
    var order := finished + [node];
    forall i, t | 0 <= i < |order| && Edge(order[i], t) in edges ensures t in order[..i] {
      if i == |finished| {
        TargetsAreEdges(edges, node, t);
        assert order[..i] == finished;
      } else {
        assert order[..i] == finished[..i];
      }
    }
  }

  /** The variables that the nested search function shares. */
  class CycleFinder {
    ghost const edges: seq<Edge>
    const adj: map<Node, seq<Node>>
    var visited: set<Node>
    var recStack: set<Node>
    var cycles: seq<seq<Node>>
    var currentPath: seq<Node>
    ghost var finished: seq<Node>

    ghost predicate Valid()
      reads this
    {
      Groups(edges, adj) && Consistent(edges, visited, recStack, cycles, currentPath, finished)
    }

    constructor (ghost edges: seq<Edge>, adj: map<Node, seq<Node>>)
      requires Groups(edges, adj)
      ensures Valid() && this.edges == edges && this.adj == adj
      ensures visited == {} && currentPath == [] && cycles == [] && finished == []
    {
      this.edges, this.adj := edges, adj;
      visited, recStack, cycles, currentPath, finished := {}, {}, [], [], [];
    }

    method Dfs(node: Node)
      requires Valid() && node !in visited && node in Endpoints(edges)
      requires currentPath != [] ==> Edge(currentPath[|currentPath| - 1], node) in edges
      modifies this
      ensures Valid()
      ensures currentPath == old(currentPath) && recStack == old(recStack)
      ensures old(visited) <= visited && old(cycles) <= cycles && old(finished) <= finished
      ensures node in finished
      decreases Endpoints(edges) - visited, 0
    {
      Push(node);
      FollowAll(node);
      Pop(node, old(currentPath));
    }

    /** The three updates at the start of a search. */
    method Push(node: Node)
      requires Valid() && node !in visited && node in Endpoints(edges)
      requires currentPath != [] ==> Edge(currentPath[|currentPath| - 1], node) in edges
      modifies this
      ensures Valid()
      ensures currentPath == old(currentPath) + [node] && recStack == old(recStack) + {node}
      ensures visited == old(visited) + {node} && cycles == old(cycles) && finished == old(finished)
      ensures node !in old(recStack)
    {
      Enter(edges, visited, recStack, cycles, currentPath, finished, node);
      visited := visited + {node};
      recStack := recStack + {node};
      currentPath := currentPath + [node];
    }

    /** The two updates at its end. */
    method Pop(node: Node, ghost path: seq<Node>)
      requires Valid() && currentPath == path + [node]
      requires cycles == [] ==> DoneUpTo(Targets(edges, node), |Targets(edges, node)|, finished)
      modifies this
      ensures Valid()
      ensures currentPath == path && recStack == old(recStack) - {node}
      ensures visited == old(visited) && cycles == old(cycles) && finished == old(finished) + [node]
    {
      Leave(edges, visited, recStack, cycles, path, finished, node);
      currentPath := currentPath[..|currentPath| - 1];
      recStack := recStack - {node};
      finished := finished + [node];
    }

    /** The search's loop over the neighbors of the node at the end of the path. */
    method FollowAll(node: Node)
      requires Valid() && currentPath != [] && currentPath[|currentPath| - 1] == node
      modifies this
      ensures Valid()
      ensures currentPath == old(currentPath) && recStack == old(recStack)
      ensures old(visited) <= visited && old(cycles) <= cycles && old(finished) <= finished
      ensures cycles == [] ==> DoneUpTo(Targets(edges, node), |Targets(edges, node)|, finished)
      decreases Endpoints(edges) - visited, 2
    {
      var neighbors := if node in adj then adj[node] else [];
      for i := 0 to |neighbors|
        invariant Valid() && neighbors == Targets(edges, node)
        invariant currentPath == old(currentPath) && recStack == old(recStack)
        invariant old(visited) <= visited && old(cycles) <= cycles && old(finished) <= finished
        invariant cycles == [] ==> DoneUpTo(neighbors, i, finished)
      {
        NeighborFacts(edges, node, neighbors[i]);
        ghost var before := finished;
        Follow(node, neighbors[i]);
        DoneGrows(neighbors, i, before, finished);
      }
    }

    method SearchAll(keys: seq<Node>)
      requires Valid() && currentPath == [] && ListsSources(edges, keys)
      modifies this
      ensures Valid() && currentPath == []
      ensures forall k :: 0 <= k < |keys| ==> keys[k] in visited
    {
      for i := 0 to |keys|
        invariant Valid() && currentPath == []
        invariant forall k :: 0 <= k < i ==> keys[k] in visited
      {
        assert keys[i] in keys;
        if keys[i] !in visited {
          Dfs(keys[i]);
          assert keys[i] in Elements(finished);
        }
      }
    }

    /** One step of the search's loop: descend, report a cycle, or pass over a finished node. */
    method Follow(node: Node, neighbor: Node)
      requires Valid() && currentPath != [] && currentPath[|currentPath| - 1] == node && Edge(node, neighbor) in edges
      requires neighbor in Endpoints(edges)
      modifies this
      ensures Valid()
      ensures currentPath == old(currentPath) && recStack == old(recStack)
      ensures old(visited) <= visited && old(cycles) <= cycles && old(finished) <= finished
      ensures cycles == [] ==> neighbor in finished
      decreases Endpoints(edges) - visited, 1
    {
      if neighbor !in visited {
        Dfs(neighbor);
      } else if neighbor in recStack {
        var idx := IndexOf(currentPath, neighbor);
        Report(edges, currentPath, idx, neighbor);
        cycles := cycles + [currentPath[idx..] + [neighbor]];
      } else {
        assert neighbor in Elements(finished);
      }
    }
  }

  lemma NeighborFacts(edges: seq<Edge>, node: Node, neighbor: Node)
    requires neighbor in Targets(edges, node)
    ensures Edge(node, neighbor) in edges && neighbor in Endpoints(edges)
  {
    TargetsAreEdges(edges, node, neighbor);
    assert Edge(node, neighbor).target == neighbor;
  }

  method IndexOf(s: seq<Node>, n: Node) returns (idx: nat)
    requires n in s
    ensures idx < |s| && s[idx] == n && n !in s[..idx]
  {
    idx := 0;
    while s[idx] != n
      invariant idx < |s| && n !in s[..idx]
      decreases |s| - idx
    {
      idx := idx + 1;
    }
  }

  /** Every reported cycle is a closed walk, and none is reported exactly when the graph has none. */
  method DetectCycles(edges: seq<Edge>) returns (cycles: seq<seq<Node>>)
    ensures forall c :: c in cycles ==> ClosedWalk(edges, c)
    ensures cycles == [] <==> Acyclic(edges)
  {
    var adj, keys := BuildAdjacency(edges);
    var finder := new CycleFinder(edges, adj);
    finder.SearchAll(keys);
    cycles := finder.cycles;
    if cycles == [] {
      AllFinished(edges, keys, finder.visited, finder.recStack, finder.finished);
    } else {
      assert ClosedWalk(edges, cycles[0]);
    }
  }

  lemma AllFinished(edges: seq<Edge>, keys: seq<Node>, visited: set<Node>, recStack: set<Node>, finished: seq<Node>)
    requires Consistent(edges, visited, recStack, [], [], finished) && ListsSources(edges, keys)
    requires forall k :: 0 <= k < |keys| ==> keys[k] in visited
    ensures Acyclic(edges)
  {
    forall e | e in edges ensures e.source in finished {
      assert e.source in visited && e.source !in recStack;
    }
    OrderExcludesCycles(edges, finished);
  }
}
