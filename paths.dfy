/** Walks along the edges of an adjacency map with natural-number weights,
    and what they cost. The yardstick the route search is measured by. */
module Paths {

  type Adjacency = map<int, map<int, nat>>

  function Last(p: seq<int>): int
    requires |p| > 0
  {
    p[|p| - 1]
  }

  /** `p` is a non-empty walk: each vertex but the last has an edge to the next. */
  ghost predicate IsPath(adj: Adjacency, p: seq<int>)
    decreases |p|
  {
    && |p| >= 1
    && (|p| > 1 ==>
          && IsPath(adj, p[..|p| - 1])
          && p[|p| - 2] in adj && p[|p| - 1] in adj[p[|p| - 2]])
  }

  /** The sum of the weights of the edges of `p`. */
  ghost function PathCost(adj: Adjacency, p: seq<int>): nat
    requires IsPath(adj, p)
    decreases |p|
  {
    if |p| == 1 then 0
    else
      PathCost(adj, p[..|p| - 1]) + adj[p[|p| - 2]][p[|p| - 1]]
  }

  /** Extending a walk by one edge at its end adds that edge's weight. */
  lemma Extend(adj: Adjacency, p: seq<int>, v: int)
    requires IsPath(adj, p) && Last(p) in adj && v in adj[Last(p)]
    ensures IsPath(adj, p + [v])
    ensures PathCost(adj, p + [v]) == PathCost(adj, p) + adj[Last(p)][v]
  {
    assert (p + [v])[..|p|] == p;
  }
}
