/** The directed weighted graph container: an adjacency "map of maps" from a
    vertex to its out-neighbours and the weight of each edge, with a vertex
    counter and an edge counter kept in step with the map. Vertices are
    integer ids; the weight type is left open. */
module Graphs {
  import Keys

  /** The ordered (from, to) pairs that carry an edge. */
  ghost function EdgeSet<W>(adj: map<int, map<int, W>>): set<(int, int)> {
    set u, v | u in adj && v in adj[u] :: (u, v)
  }

  /** The sum of the sizes of the inner maps. */
  ghost function OutDegreeSum<W>(adj: map<int, map<int, W>>): nat
    decreases |adj|
  {
    if adj == map[] then 0
    else
      Keys.HasMember(adj.Keys);
      var u :| u in adj;
      |adj[u]| + OutDegreeSum(adj - {u})
  }

  /** Every neighbour key is itself a vertex. */
  ghost predicate Closed<W>(adj: map<int, map<int, W>>) {
    forall u, v :: u in adj && v in adj[u] ==> v in adj
  }

  /** The edges leaving one vertex `u` whose neighbour map is `m`. */
  ghost function Row<W>(u: int, m: map<int, W>): set<(int, int)> {
    set v | v in m :: (u, v)
  }

  lemma {:induction false} RowSize<W>(u: int, m: map<int, W>)
    ensures |Row(u, m)| == |m|
    decreases |m|
  {
    if m != map[] {
      Keys.HasMember(m.Keys);
      var v :| v in m;
      var m' := m - {v};
      RowSize(u, m');
      assert Row(u, m) == Row(u, m') + {(u, v)};
    }
  }

  lemma EdgeSetSplit<W>(adj: map<int, map<int, W>>, u: int)
    requires u in adj
    ensures EdgeSet(adj) == EdgeSet(adj - {u}) + Row(u, adj[u])
    ensures EdgeSet(adj - {u}) !! Row(u, adj[u])
  {
  }

  /** The edge count is the sum of the inner map sizes. */
  lemma {:induction false} EdgeCountIsOutDegreeSum<W>(adj: map<int, map<int, W>>)
    ensures |EdgeSet(adj)| == OutDegreeSum(adj)
    decreases |adj|
  {
    if adj != map[] {
      Keys.HasMember(adj.Keys);
      var u :| u in adj && OutDegreeSum(adj) == |adj[u]| + OutDegreeSum(adj - {u});
      EdgeCountIsOutDegreeSum(adj - {u});
      EdgeSetSplit(adj, u);
      RowSize(u, adj[u]);
    }
  }

  /** Setting the weight of an edge from `from` to `to`: an existing edge
      keeps the edge set as it was, a new one adds exactly that pair. */
  lemma EdgeSetUpdate<W>(adj: map<int, map<int, W>>, from: int, to: int, w: W)
    requires from in adj
    ensures to in adj[from] ==> EdgeSet(adj[from := adj[from][to := w]]) == EdgeSet(adj)
    ensures to !in adj[from] ==>
      EdgeSet(adj[from := adj[from][to := w]]) == EdgeSet(adj) + {(from, to)} && (from, to) !in EdgeSet(adj)
  {
    var adj' := adj[from := adj[from][to := w]];
    if to in adj[from] {
      assert EdgeSet(adj') == EdgeSet(adj);
    } else {
      assert EdgeSet(adj') == EdgeSet(adj) + {(from, to)};
    }
  }

  class Graph<W(==)> {
    var adj: map<int, map<int, W>>
    var nVertices: int
    var nEdges: int

    /** The class invariant: both counters agree with the map, and no edge
        leads to a vertex that was never added. */
    ghost predicate Valid()
      reads this
    {
      && nVertices == |adj|
      && nEdges == |EdgeSet(adj)|
      && Closed(adj)
    }

    constructor ()
      ensures Valid()
      ensures adj == map[] && nVertices == 0 && nEdges == 0
    {
      adj := map[];
      nVertices := 0;
      nEdges := 0;
    }

    /** The copy constructor. */
    constructor Copy(other: Graph<W>)
      ensures adj == other.adj && nVertices == other.nVertices && nEdges == other.nEdges
      ensures other.Valid() ==> Valid()
      ensures Equals(other)
    {
      adj := other.adj;
      nVertices := other.nVertices;
      nEdges := other.nEdges;
    }

    /** The assignment operator. */
    method Assign(other: Graph<W>)
      modifies this
      ensures adj == old(other.adj) && nVertices == old(other.nVertices) && nEdges == old(other.nEdges)
      ensures old(other.Valid()) ==> Valid()
      ensures Equals(other)
    {
      adj := other.adj;
      nVertices := other.nVertices;
      nEdges := other.nEdges;
    }

    /** The equality operator. For graphs that keep the invariant the two
        counters are redundant: equality is equality of adjacency. */
    function Equals(other: Graph<W>): (r: bool)
      reads this, other
      ensures Valid() && other.Valid() ==> (r <==> adj == other.adj)
    {
      adj == other.adj && nVertices == other.nVertices && nEdges == other.nEdges
    }

    function NumVertices(): (n: int)
      reads this
      requires Valid()
      ensures n == |adj|
    {
      nVertices
    }

    function NumEdges(): (n: int)
      reads this
      requires Valid()
      ensures n == |EdgeSet(adj)|
      ensures n == OutDegreeSum(adj)
    {
      EdgeCountIsOutDegreeSum(adj);
      nEdges
    }

    method AddVertex(v: int) returns (added: bool)
      requires Valid()
      modifies this
      ensures Valid()
      ensures added <==> v !in old(adj)
      ensures adj == if added then old(adj)[v := map[]] else old(adj)
      ensures nVertices == old(nVertices) + (if added then 1 else 0)
      ensures nEdges == old(nEdges)
    {
      if v !in adj {
        assert EdgeSet(adj[v := map[]]) == EdgeSet(adj);
        adj := adj[v := map[]];
        nVertices := nVertices + 1;
        return true;
      }
      return false;
    }

    method AddEdge(from: int, to: int, weight: W) returns (added: bool)
      requires Valid()
      modifies this
      ensures Valid()
      ensures added <==> from in old(adj) && to in old(adj)
      ensures added ==> adj == old(adj)[from := old(adj)[from][to := weight]]
      ensures added ==> nEdges == old(nEdges) + (if to in old(adj)[from] then 0 else 1)
      ensures !added ==> adj == old(adj) && nEdges == old(nEdges)
      ensures nVertices == old(nVertices)
    {
      if from !in adj || to !in adj {
        return false;
      }
      var fromNeighbors := adj[from];
      if to !in fromNeighbors {
        nEdges := nEdges + 1;
      }
      EdgeSetUpdate(adj, from, to, weight);
      adj := adj[from := fromNeighbors[to := weight]];
      return true;
    }

    /** Reports the weight of the edge from `from` to `to`. On failure the
        caller's `weight` comes back as it went in. */
    method GetWeight(from: int, to: int, weight: W) returns (found: bool, result: W)
      ensures found <==> from in adj && to in adj && to in adj[from]
      ensures found ==> result == adj[from][to]
      ensures !found ==> result == weight
    {
      if from !in adj || to !in adj {
        return false, weight;
      }
      var fromNeighbors := adj[from];
      if to !in fromNeighbors {
        return false, weight;
      }
      return true, fromNeighbors[to];
    }

    /** The out-neighbours of `v`, ascending; none for an unknown `v`. */
    method Neighbors(v: int) returns (s: seq<int>)
      ensures Keys.StrictlyIncreasing(s)
      ensures forall u :: u in s <==> v in adj && u in adj[v]
    {
      if v in adj {
        s := Keys.Ascending(adj[v].Keys);
      } else {
        s := [];
      }
    }

    /** Every vertex once, ascending. */
    method GetVertices() returns (vertices: seq<int>)
      ensures Keys.StrictlyIncreasing(vertices)
      ensures forall u :: u in vertices <==> u in adj
      ensures |vertices| == |adj|
    {
      vertices := Keys.Ascending(adj.Keys);
    }
  }
}
