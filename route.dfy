/** Reading a route off the search's predecessor table: the stack of vertex
    ids the program fills by following predecessors back from the
    destination, and why the distances the search reports are the lengths
    of shortest walks. */
module Route {
  import opened Wrappers
  import opened Priority
  import opened Paths
  import opened ShortestPath

  /** Following predecessors always leads to a vertex visited earlier, so
      every chain of predecessors ends. */
  ghost predicate Chains(pred: map<int, Option<int>>, rank: map<int, nat>) {
    forall v {:trigger pred[v]} :: v in pred && pred[v].Some? ==>
      pred[v].value in pred && pred[v].value in rank && v in rank && rank[pred[v].value] < rank[v]
  }

  /** The search's predecessor table has chains that end. */
  lemma TreeChains(adj: Adjacency, start: int, dist: map<int, Dist>, pred: map<int, Option<int>>, rank: map<int, nat>)
    requires PredecessorTree(adj, start, dist, pred, rank)
    ensures Chains(pred, rank)
  {
    forall v | v in pred && pred[v].Some?
      ensures pred[v].value in pred && pred[v].value in rank && v in rank && rank[pred[v].value] < rank[v]
    {
      assert pred[v] == Some(pred[v].value);
    }
  }

  /** The vertices met by following predecessors back from `v`, written
      start first. ChainPathWalks says what it is. */
  ghost function ChainPath(pred: map<int, Option<int>>, rank: map<int, nat>, v: int): (p: seq<int>)
    requires Chains(pred, rank)
    requires v in pred
    ensures |p| >= 1 && Last(p) == v
    decreases if v in rank then rank[v] + 1 else 0
  {
    match pred[v]
    case None => [v]
    case Some(u) => ChainPath(pred, rank, u) + [v]
  }

  /** For a reached vertex the chain is a walk from the start whose cost is
      the vertex's distance; an unreached vertex has no predecessor and the
      chain is the vertex alone. */
  lemma {:induction false} ChainPathWalks(adj: Adjacency, start: int, dist: map<int, Dist>, pred: map<int, Option<int>>,
                                          rank: map<int, nat>, v: int)
    requires PredecessorTree(adj, start, dist, pred, rank)
    requires v in pred
    ensures Chains(pred, rank)
    ensures var p := ChainPath(pred, rank, v);
      && IsPath(adj, p)
      && (dist[v].Some? ==> p[0] == start && PathCost(adj, p) == dist[v].value)
      && (dist[v] == None ==> p == [v])
    decreases if v in rank then rank[v] + 1 else 0
  {
    TreeChains(adj, start, dist, pred, rank);
    match pred[v]
    case None =>
    case Some(u) =>
      ChainPathWalks(adj, start, dist, pred, rank, u);
      Extend(adj, ChainPath(pred, rank, u), v);
  }

  /** The route stack: push the destination, then each predecessor in turn
      until the chain ends. The stack is a sequence whose top is at index
      0, so popping it yields the route from the start to the destination;
      for the search's predecessor table that is a shortest walk. */
  method ReconstructPath(pred: map<int, Option<int>>, dest: int, ghost rank: map<int, nat>,
                         ghost adj: Adjacency, ghost start: int, ghost dist: map<int, Dist>)
    returns (path: seq<int>)
    requires Chains(pred, rank)
    requires dest in pred
    ensures path == ChainPath(pred, rank, dest)
    ensures PredecessorTree(adj, start, dist, pred, rank) ==>
      && IsPath(adj, path) && Last(path) == dest
      && (dist[dest].Some? ==> path[0] == start && PathCost(adj, path) == dist[dest].value)
      && (dist[dest] == None ==> path == [dest])
  {
    path := [dest];
    var predecessorID := pred[dest];
    while predecessorID.Some?
      invariant |path| >= 1 && path[0] in pred && predecessorID == pred[path[0]]
      invariant ChainPath(pred, rank, path[0]) + path[1..] == ChainPath(pred, rank, dest)
      decreases if path[0] in rank then rank[path[0]] + 1 else 0
    {
      var top := path[0];
      var u := predecessorID.value;
      ghost var below := path[1..];
      assert path == [top] + below;
      path := [u] + path;
      predecessorID := pred[u];
      assert path[1..] == [top] + below;
      assert ChainPath(pred, rank, top) == ChainPath(pred, rank, u) + [top];
    }
    if PredecessorTree(adj, start, dist, pred, rank) {
      ChainPathWalks(adj, start, dist, pred, rank, dest);
    }
  }

  /** Every finite distance the search reports is the cost of a shortest walk
      from the start, and a vertex is reached exactly when some walk from
      the start ends at it. */
  lemma ShortestDistances(adj: Adjacency, start: int, dist: map<int, Dist>, pred: map<int, Option<int>>,
                          rank: map<int, nat>, v: int)
    requires NoShorterWalk(adj, start, dist)
    requires PredecessorTree(adj, start, dist, pred, rank)
    requires v in pred
    ensures dist[v].Some? <==> exists p :: IsPath(adj, p) && p[0] == start && Last(p) == v
    ensures dist[v].Some? ==>
      && (exists p :: IsPath(adj, p) && p[0] == start && Last(p) == v && PathCost(adj, p) == dist[v].value)
      && (forall p :: IsPath(adj, p) && p[0] == start && Last(p) == v ==> dist[v].value <= PathCost(adj, p))
  {
    if dist[v].Some? {
      ChainPathWalks(adj, start, dist, pred, rank, v);
      var p := ChainPath(pred, rank, v);
      assert IsPath(adj, p) && p[0] == start && Last(p) == v && PathCost(adj, p) == dist[v].value;
    }
  }
}
