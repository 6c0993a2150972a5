/** Turning footways into graph edges: every two consecutive nodes of a
    footway are joined both ways, weighted by the distance between their
    positions. A later footway that joins the same two nodes overwrites the
    weight an earlier one gave. */
module Footways {
  import opened Osm
  import opened Graphs

  /** One pair of consecutive footway nodes and the distance between them. */
  datatype Leg = Leg(from: int, to: int, weight: nat)

  /** The nodes of one footway whose positions the loop looks up: all of
      them when the footway has a leg, none when it has fewer than two nodes. */
  ghost predicate Placed(ns: seq<int>, nodes: map<int, Coordinates>) {
    |ns| > 1 ==> AllKnown(ns, nodes)
  }

  /** Every position the edge-building loop looks up is in the node table. */
  ghost predicate Positioned(footways: seq<FootwayInfo>, nodes: map<int, Coordinates>) {
    forall k :: 0 <= k < |footways| ==> Placed(footways[k].nodes, nodes)
  }

  /** The leg from node `i` of `ns` to node `i + 1`. */
  function LegAt(ns: seq<int>, i: nat, nodes: map<int, Coordinates>, distance: DistanceFn): (l: Leg)
    requires i + 1 < |ns| && ns[i] in nodes && ns[i + 1] in nodes
    ensures l.from == ns[i] && l.to == ns[i + 1]
  {
    var p1 := nodes[ns[i]];
    var p2 := nodes[ns[i + 1]];
    Leg(ns[i], ns[i + 1], distance(p1.lat, p1.lon, p2.lat, p2.lon))
  }

  /** The first `n` legs of one footway. */
  function LegsUpTo(ns: seq<int>, n: nat, nodes: map<int, Coordinates>, distance: DistanceFn): (r: seq<Leg>)
    requires n == 0 || n < |ns|
    requires Placed(ns, nodes)
    ensures |r| == n
    ensures forall i :: 0 <= i < n ==> r[i] == LegAt(ns, i, nodes, distance)
  {
    if n == 0 then [] else LegsUpTo(ns, n - 1, nodes, distance) + [LegAt(ns, n - 1, nodes, distance)]
  }

  /** How many legs a footway of `len` nodes has. */
  function LegCount(len: nat): (n: nat)
    ensures n == 0 || n < len
    ensures n + 1 == len || (len == 0 && n == 0)
  {
    if len == 0 then 0 else len - 1
  }

  /** All legs of all footways, in the order the program adds them. */
  function Legs(footways: seq<FootwayInfo>, nodes: map<int, Coordinates>, distance: DistanceFn): seq<Leg>
    requires Positioned(footways, nodes)
    decreases |footways|
  {
    if footways == [] then []
    else
      var init := footways[..|footways| - 1];
      var ns := footways[|footways| - 1].nodes;
      assert forall k :: 0 <= k < |init| ==> init[k] == footways[k];
      assert Placed(footways[|footways| - 1].nodes, nodes);
      Legs(init, nodes, distance) + FootwayLegs(ns, nodes, distance)
  }

  /** The legs of one footway. */
  function FootwayLegs(ns: seq<int>, nodes: map<int, Coordinates>, distance: DistanceFn): (r: seq<Leg>)
    requires Placed(ns, nodes)
    ensures |r| == LegCount(|ns|)
  {
    LegsUpTo(ns, LegCount(|ns|), nodes, distance)
  }

  /** The legs of a prefix of the footways, one footway longer. */
  lemma LegsSnoc(footways: seq<FootwayInfo>, nodes: map<int, Coordinates>, distance: DistanceFn, f: nat)
    requires Positioned(footways, nodes) && f < |footways|
    ensures Positioned(footways[..f], nodes) && Positioned(footways[..f + 1], nodes)
    ensures Placed(footways[f].nodes, nodes)
    ensures Legs(footways[..f + 1], nodes, distance)
         == Legs(footways[..f], nodes, distance) + FootwayLegs(footways[f].nodes, nodes, distance)
  {
    assert footways[..f + 1][..f] == footways[..f];
    assert footways[..f + 1][f] == footways[f];
  }

  /** The effect of `addEdge(a, b, w)` on the adjacency map: the edge is set
      (or overwritten) when both ends are vertices, otherwise nothing changes. */
  function Link<W>(adj: map<int, map<int, W>>, a: int, b: int, w: W): (r: map<int, map<int, W>>)
    ensures r.Keys == adj.Keys
  {
    if a in adj && b in adj then adj[a := adj[a][b := w]] else adj
  }

  /** A leg added both ways. */
  function LinkBoth(adj: map<int, map<int, nat>>, l: Leg): (r: map<int, map<int, nat>>)
    ensures r.Keys == adj.Keys
  {
    Link(Link(adj, l.from, l.to, l.weight), l.to, l.from, l.weight)
  }

  /** Adding a leg keeps every edge already there. */
  lemma LinkBothKeeps(adj: map<int, map<int, nat>>, l: Leg, u: int, v: int)
    requires u in adj && v in adj[u]
    ensures u in LinkBoth(adj, l) && v in LinkBoth(adj, l)[u]
  {
    var mid := Link(adj, l.from, l.to, l.weight);
    assert u in mid && v in mid[u];
  }

  /** Adding a leg between two vertices joins them both ways. */
  lemma LinkBothJoins(adj: map<int, map<int, nat>>, l: Leg)
    requires l.from in adj && l.to in adj
    ensures l.to in LinkBoth(adj, l)[l.from] && l.from in LinkBoth(adj, l)[l.to]
  {
    var mid := Link(adj, l.from, l.to, l.weight);
    assert l.to in mid[l.from];
    assert l.from in LinkBoth(adj, l)[l.to];
    assert l.to in LinkBoth(adj, l)[l.from];
  }

  /** The adjacency after adding every leg in turn, both ways. */
  function Build(adj: map<int, map<int, nat>>, legs: seq<Leg>): (r: map<int, map<int, nat>>)
    decreases |legs|
  {
    if legs == [] then adj else LinkBoth(Build(adj, legs[..|legs| - 1]), legs[|legs| - 1])
  }

  /** Adding edges adds no vertex and removes none. */
  lemma {:induction false} BuildKeepsVertices(adj: map<int, map<int, nat>>, legs: seq<Leg>)
    ensures Build(adj, legs).Keys == adj.Keys
    decreases |legs|
  {
    if legs != [] {
      BuildKeepsVertices(adj, legs[..|legs| - 1]);
    }
  }

  lemma BuildSnoc(adj: map<int, map<int, nat>>, legs: seq<Leg>, l: Leg)
    ensures Build(adj, legs + [l]) == LinkBoth(Build(adj, legs), l)
  {
    assert (legs + [l])[..|legs|] == legs;
  }

  /** Adding two runs of legs is adding their concatenation. */
  lemma {:induction false} BuildAppend(adj: map<int, map<int, nat>>, xs: seq<Leg>, ys: seq<Leg>)
    ensures Build(adj, xs + ys) == Build(Build(adj, xs), ys)
    decreases |ys|
  {
    if ys == [] {
      assert xs + ys == xs;
    } else {
      var ys' := ys[..|ys| - 1];
      BuildAppend(adj, xs, ys');
      assert (xs + ys)[..|xs + ys| - 1] == xs + ys';
      assert (xs + ys)[|xs + ys| - 1] == ys[|ys| - 1];
      assert Build(adj, xs + ys) == LinkBoth(Build(adj, xs + ys'), ys[|ys| - 1]);
    }
  }

  /** Adding an edge never removes one. */
  lemma {:induction false} BuildKeepsEdges(adj: map<int, map<int, nat>>, legs: seq<Leg>, u: int, v: int)
    requires u in adj && v in adj[u]
    ensures u in Build(adj, legs) && v in Build(adj, legs)[u]
    decreases |legs|
  {
    if legs != [] {
      BuildKeepsEdges(adj, legs[..|legs| - 1], u, v);
      BuildKeepsVertices(adj, legs[..|legs| - 1]);
      LinkBothKeeps(Build(adj, legs[..|legs| - 1]), legs[|legs| - 1], u, v);
    }
  }

  /** Every leg whose two ends are vertices ends up as an edge both ways. */
  lemma {:induction false} BuildLinksLegs(adj: map<int, map<int, nat>>, legs: seq<Leg>, j: nat)
    requires j < |legs| && legs[j].from in adj && legs[j].to in adj
    ensures legs[j].from in Build(adj, legs) && legs[j].to in Build(adj, legs)[legs[j].from]
    ensures legs[j].to in Build(adj, legs) && legs[j].from in Build(adj, legs)[legs[j].to]
    decreases |legs|
  {
    var init := legs[..|legs| - 1];
    var l := legs[j];
    BuildKeepsVertices(adj, init);
    if j < |legs| - 1 {
      assert init[j] == l;
      BuildLinksLegs(adj, init, j);
      LinkBothKeeps(Build(adj, init), legs[|legs| - 1], l.from, l.to);
      LinkBothKeeps(Build(adj, init), legs[|legs| - 1], l.to, l.from);
    } else {
      LinkBothJoins(Build(adj, init), l);
    }
  }

  /** `l` joins `u` and `v`, in one direction or the other. */
  predicate Joins(l: Leg, u: int, v: int) {
    (l.from == u && l.to == v) || (l.from == v && l.to == u)
  }

  /** Every edge of the result was already there with its weight, or is a
      leg (in either direction) carrying that leg's weight. */
  lemma {:induction false} BuildOnlyAddsLegs(adj: map<int, map<int, nat>>, legs: seq<Leg>, u: int, v: int)
    requires u in Build(adj, legs) && v in Build(adj, legs)[u]
    ensures || (u in adj && v in adj[u] && Build(adj, legs)[u][v] == adj[u][v])
            || (exists j :: 0 <= j < |legs| && Joins(legs[j], u, v) && Build(adj, legs)[u][v] == legs[j].weight)
    decreases |legs|
  {
    if legs != [] {
      var init := legs[..|legs| - 1];
      var l := legs[|legs| - 1];
      var before := Build(adj, init);
      BuildKeepsVertices(adj, init);
      if Joins(l, u, v) && Build(adj, legs)[u][v] == l.weight {
        assert Joins(legs[|legs| - 1], u, v);
      } else {
        assert u in before && v in before[u] && Build(adj, legs)[u][v] == before[u][v];
        BuildOnlyAddsLegs(adj, init, u, v);
        forall j | 0 <= j < |init| ensures init[j] == legs[j] {
        }
      }
    }
  }

  /** Every edge runs both ways with the same weight. */
  ghost predicate Symmetric(adj: map<int, map<int, nat>>) {
    forall u, v :: u in adj && v in adj[u] ==> v in adj && u in adj[v] && adj[v][u] == adj[u][v]
  }

  /** A graph with vertices but no edges, as the program has before the
      footways are added, is symmetric. */
  lemma NoEdgesIsSymmetric(adj: map<int, map<int, nat>>)
    requires forall u :: u in adj ==> adj[u] == map[]
    ensures Symmetric(adj)
  {
  }

  /** Adding one leg both ways keeps the graph symmetric. */
  lemma LinkBothKeepsSymmetric(adj: map<int, map<int, nat>>, l: Leg)
    requires Symmetric(adj)
    ensures Symmetric(LinkBoth(adj, l))
  {
    var after := LinkBoth(adj, l);
    forall u, v | u in after && v in after[u]
      ensures v in after && u in after[v] && after[v][u] == after[u][v]
    {
      if l.from in adj && l.to in adj && !Joins(l, u, v) {
        assert after[u][v] == adj[u][v];
        assert after[v][u] == adj[v][u];
      }
    }
  }

  /** Adding legs both ways keeps the graph symmetric. */
  lemma {:induction false} BuildKeepsSymmetric(adj: map<int, map<int, nat>>, legs: seq<Leg>)
    requires Symmetric(adj)
    ensures Symmetric(Build(adj, legs))
    decreases |legs|
  {
    if legs != [] {
      BuildKeepsSymmetric(adj, legs[..|legs| - 1]);
      LinkBothKeepsSymmetric(Build(adj, legs[..|legs| - 1]), legs[|legs| - 1]);
    }
  }

  /** Every pair of consecutive nodes of every footway is a leg, with the
      distance between the two positions as its weight. */
  lemma {:induction false} LegsCoverFootways(footways: seq<FootwayInfo>, nodes: map<int, Coordinates>, distance: DistanceFn,
                                             k: nat, i: nat)
    requires Positioned(footways, nodes)
    requires k < |footways| && i + 1 < |footways[k].nodes|
    ensures (exists j :: 0 <= j < |Legs(footways, nodes, distance)| &&
               Legs(footways, nodes, distance)[j] == LegAt(footways[k].nodes, i, nodes, distance))
    decreases |footways|
  {
    var init := footways[..|footways| - 1];
    var ns := footways[|footways| - 1].nodes;
    assert forall k' :: 0 <= k' < |init| ==> init[k'] == footways[k'];
    var prefix := Legs(init, nodes, distance);
    var tail := FootwayLegs(ns, nodes, distance);
    assert Legs(footways, nodes, distance) == prefix + tail;
    if k < |footways| - 1 {
      LegsCoverFootways(init, nodes, distance, k, i);
      var j :| 0 <= j < |prefix| && prefix[j] == LegAt(init[k].nodes, i, nodes, distance);
      assert (prefix + tail)[j] == prefix[j];
    } else {
      assert tail[i] == LegAt(ns, i, nodes, distance);
      assert (prefix + tail)[|prefix| + i] == tail[i];
    }
  }

  /** Every leg joins two consecutive nodes of some footway. */
  lemma {:induction false} LegsComeFromFootways(footways: seq<FootwayInfo>, nodes: map<int, Coordinates>,
                                                distance: DistanceFn, j: nat)
    requires Positioned(footways, nodes)
    requires j < |Legs(footways, nodes, distance)|
    ensures (exists k, i :: 0 <= k < |footways| && 0 <= i && i + 1 < |footways[k].nodes| &&
               Legs(footways, nodes, distance)[j] == LegAt(footways[k].nodes, i, nodes, distance))
    decreases |footways|
  {
    var init := footways[..|footways| - 1];
    var ns := footways[|footways| - 1].nodes;
    assert forall k' :: 0 <= k' < |init| ==> init[k'] == footways[k'];
    var prefix := Legs(init, nodes, distance);
    var tail := FootwayLegs(ns, nodes, distance);
    assert Legs(footways, nodes, distance) == prefix + tail;
    if j < |prefix| {
      LegsComeFromFootways(init, nodes, distance, j);
      var k, i :| 0 <= k < |init| && 0 <= i && i + 1 < |init[k].nodes| &&
        prefix[j] == LegAt(init[k].nodes, i, nodes, distance);
      assert (prefix + tail)[j] == prefix[j];
    } else {
      var i := j - |prefix|;
      assert (prefix + tail)[j] == tail[i];
      assert tail[i] == LegAt(ns, i, nodes, distance);
    }
  }

  /** The loop body: the distance between node `i` of `ns` and the next,
      then `addEdge` one way and the other. */
  method AddLeg(g: Graph<nat>, ns: seq<int>, i: nat, nodes: map<int, Coordinates>, distance: DistanceFn)
    requires g.Valid()
    requires i + 1 < |ns| && ns[i] in nodes && ns[i + 1] in nodes
    modifies g
    ensures g.Valid()
    ensures g.nVertices == old(g.nVertices)
    ensures g.adj == LinkBoth(old(g.adj), LegAt(ns, i, nodes, distance))
  {
    var p1 := ns[i];
    var p2 := ns[i + 1];
    var p1Coordinates := nodes[p1];
    var p2Coordinates := nodes[p2];
    var weight := distance(p1Coordinates.lat, p1Coordinates.lon, p2Coordinates.lat, p2Coordinates.lon);
    var added := g.AddEdge(p1, p2, weight);
    added := g.AddEdge(p2, p1, weight);
  }

  /** One footway's legs, added in order. */
  method AddFootway(g: Graph<nat>, ns: seq<int>, nodes: map<int, Coordinates>, distance: DistanceFn)
    requires g.Valid()
    requires Placed(ns, nodes)
    modifies g
    ensures g.Valid()
    ensures g.nVertices == old(g.nVertices)
    ensures g.adj == Build(old(g.adj), FootwayLegs(ns, nodes, distance))
  {
    for i := 0 to LegCount(|ns|)
      invariant g.Valid()
      invariant g.nVertices == old(g.nVertices)
      invariant g.adj == Build(old(g.adj), LegsUpTo(ns, i, nodes, distance))
    {
      AddLeg(g, ns, i, nodes, distance);
      BuildSnoc(old(g.adj), LegsUpTo(ns, i, nodes, distance), LegAt(ns, i, nodes, distance));
    }
  }

  /** The edge-building loop: for each footway, for each node but the last,
      add the edge to the next node and the edge back, both weighted by the
      distance between the two positions. */
  method AddFootwayEdges(g: Graph<nat>, footways: seq<FootwayInfo>, nodes: map<int, Coordinates>, distance: DistanceFn)
    requires g.Valid()
    requires Positioned(footways, nodes)
    modifies g
    ensures g.Valid()
    ensures g.nVertices == old(g.nVertices)
    ensures g.adj == Build(old(g.adj), Legs(footways, nodes, distance))
  {
    for f := 0 to |footways|
      invariant g.Valid()
      invariant g.nVertices == old(g.nVertices)
      invariant Positioned(footways[..f], nodes)
      invariant g.adj == Build(old(g.adj), Legs(footways[..f], nodes, distance))
    {
      LegsSnoc(footways, nodes, distance, f);
      AddFootway(g, footways[f].nodes, nodes, distance);
      BuildAppend(old(g.adj), Legs(footways[..f], nodes, distance), FootwayLegs(footways[f].nodes, nodes, distance));
    }
    assert footways[..|footways|] == footways;
  }

  /** After the loop, two consecutive nodes of any footway that are both
      vertices are joined both ways; and when the graph had no edges to
      begin with, every edge runs both ways with one weight. */
  lemma FootwaysLinked(adj: map<int, map<int, nat>>, footways: seq<FootwayInfo>, nodes: map<int, Coordinates>,
                       distance: DistanceFn, k: nat, i: nat)
    requires Positioned(footways, nodes)
    requires k < |footways| && i + 1 < |footways[k].nodes|
    requires footways[k].nodes[i] in adj && footways[k].nodes[i + 1] in adj
    ensures var r := Build(adj, Legs(footways, nodes, distance));
      && footways[k].nodes[i] in r && footways[k].nodes[i + 1] in r[footways[k].nodes[i]]
      && footways[k].nodes[i + 1] in r && footways[k].nodes[i] in r[footways[k].nodes[i + 1]]
  {
    var legs := Legs(footways, nodes, distance);
    LegsCoverFootways(footways, nodes, distance, k, i);
    var j :| 0 <= j < |legs| && legs[j] == LegAt(footways[k].nodes, i, nodes, distance);
    BuildLinksLegs(adj, legs, j);
    BuildKeepsVertices(adj, legs);
  }
}
