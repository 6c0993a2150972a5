/** The route search: Dijkstra's algorithm over the graph container, with a
    priority queue that holds duplicate entries, a visited set that skips
    them, and an early stop at the first entry whose vertex is unreached. */
module ShortestPath {
  import opened Wrappers
  import opened Priority
  import opened Paths
  import opened Graphs
  import Keys

  // ---------------------------------------------------------------------
  // What the search keeps true
  // ---------------------------------------------------------------------

  /** The distance table covers the vertices and the start, which is at 0;
      the predecessor table covers the vertices, and the start has none. */
  ghost predicate Tables(adj: Adjacency, start: int, dist: map<int, Dist>, pred: map<int, Option<int>>) {
    && dist.Keys == adj.Keys + {start}
    && pred.Keys == adj.Keys
    && dist[start] == Some(0)
    && (start in pred ==> pred[start] == None)
  }

  /** `visited` lists the visited set in visiting order, `rank` gives each
      visited vertex its position there, visited vertices are reached, and
      their distances do not decrease along `visited`. */
  ghost predicate VisitLog(visited: seq<int>, S: set<int>, rank: map<int, nat>, dist: map<int, Dist>) {
    && rank.Keys == S
    && S <= dist.Keys
    && (forall v :: v in S ==> dist[v].Some? && rank[v] < |visited| && visited[rank[v]] == v)
    && (forall i :: 0 <= i < |visited| ==> visited[i] in S && rank[visited[i]] == i)
    && (forall i, j :: 0 <= i < j < |visited| ==> dist[visited[i]].value <= dist[visited[j]].value)
  }

  /** Every edge out of a visited vertex has been relaxed. */
  ghost predicate Relaxed(adj: Adjacency, S: set<int>, dist: map<int, Dist>) {
    forall u, v :: u in S && u in adj && v in adj[u] ==>
      && u in dist && v in dist && dist[u].Some? && dist[v].Some?
      && dist[v].value <= dist[u].value + adj[u][v]
  }

  /** Each predecessor is a visited vertex whose distance plus the edge
      weight is the recorded distance, and it was visited first; a vertex
      without one is the start or unreached. */
  ghost predicate Tree(adj: Adjacency, start: int, S: set<int>, rank: map<int, nat>,
                       dist: map<int, Dist>, pred: map<int, Option<int>>)
  {
    forall v {:trigger pred[v]} :: v in pred ==>
      match pred[v]
      case None => v == start || (v in dist && dist[v] == None)
      case Some(u) =>
        && u in S && u in rank && u in adj && v in adj[u] && u in dist && v in dist && dist[u].Some?
        && dist[v] == Some(dist[u].value + adj[u][v])
        && (v in S ==> v in rank && rank[u] < rank[v])
  }

  /** Every unvisited vertex with a finite distance has an entry at that distance. */
  ghost predicate Queued(S: set<int>, dist: map<int, Dist>, queue: multiset<Entry>) {
    forall v :: v in dist && v !in S && dist[v].Some? ==> Entry(v, dist[v]) in queue
  }

  /** Entries name known vertices and never undercut their vertex's distance. */
  ghost predicate Bounded(dist: map<int, Dist>, queue: multiset<Entry>) {
    forall e :: e in queue ==>
      && e.id in dist
      && (e.dist.Some? ==> dist[e.id].Some? && dist[e.id].value <= e.dist.value)
  }

  /** No visited vertex is farther than a finite entry still queued. */
  ghost predicate Frontier(S: set<int>, dist: map<int, Dist>, queue: multiset<Entry>) {
    forall u, e :: u in S && e in queue && e.dist.Some? ==>
      u in dist && dist[u].Some? && dist[u].value <= e.dist.value
  }

  ghost predicate Searching(adj: Adjacency, start: int, visited: seq<int>, S: set<int>, rank: map<int, nat>,
                            dist: map<int, Dist>, pred: map<int, Option<int>>)
  {
    && Closed(adj)
    && Tables(adj, start, dist, pred)
    && VisitLog(visited, S, rank, dist)
    && Relaxed(adj, S, dist)
    && Tree(adj, start, S, rank, dist, pred)
  }

  /** The main loop's invariant. */
  ghost predicate Inv(adj: Adjacency, start: int, visited: seq<int>, S: set<int>, rank: map<int, nat>,
                      dist: map<int, Dist>, pred: map<int, Option<int>>, queue: multiset<Entry>)
  {
    && Searching(adj, start, visited, S, rank, dist, pred)
    && Queued(S, dist, queue)
    && Bounded(dist, queue)
    && Frontier(S, dist, queue)
  }

  /** Every vertex with a finite distance has been visited. */
  ghost predicate AllReachedVisited(S: set<int>, dist: map<int, Dist>) {
    forall v :: v in dist && dist[v].Some? ==> v in S
  }

  /** No walk from the start is shorter than the distance recorded for its
      end, and the end of every walk from the start is reached. */
  ghost predicate NoShorterWalk(adj: Adjacency, start: int, dist: map<int, Dist>) {
    forall p :: IsPath(adj, p) && p[0] == start ==>
      Last(p) in dist && dist[Last(p)].Some? && dist[Last(p)].value <= PathCost(adj, p)
  }

  /** The predecessor table as the search leaves it: a reached vertex other
      than the start has a predecessor with an edge to it, whose distance
      plus that edge's weight is its own, and which was visited before it
      (`rank` falls strictly); unreached vertices have none. */
  ghost predicate PredecessorTree(adj: Adjacency, start: int, dist: map<int, Dist>,
                                  pred: map<int, Option<int>>, rank: map<int, nat>)
  {
    && pred.Keys <= dist.Keys
    && start in dist && dist[start] == Some(0)
    && (forall v {:trigger pred[v]} :: v in pred ==>
          match pred[v]
          case None => v == start || dist[v] == None
          case Some(u) =>
            && u in adj && v in adj[u] && u in pred && u in dist && dist[u].Some?
            && dist[v] == Some(dist[u].value + adj[u][v])
            && u in rank && v in rank && rank[u] < rank[v])
    && (forall v {:trigger pred[v]} :: v in pred && dist[v] == None ==> pred[v] == None)
  }

  /** `visited` lists exactly the reached vertices, each once, in
      nondecreasing order of distance; `rank` is the position in it. */
  ghost predicate VisitOrder(visited: seq<int>, dist: map<int, Dist>, rank: map<int, nat>) {
    && (forall v :: v in visited ==> v in dist && dist[v].Some?)
    && (forall v :: v in dist && dist[v].Some? ==> v in visited)
    && (forall i, j :: 0 <= i < j < |visited| ==> visited[i] != visited[j])
    && (forall i, j :: 0 <= i < j < |visited| ==> dist[visited[i]].value <= dist[visited[j]].value)
    && (forall i :: 0 <= i < |visited| ==> visited[i] in rank && rank[visited[i]] == i)
  }

  // ---------------------------------------------------------------------
  // Relaxing the edges out of the vertex just visited
  // ---------------------------------------------------------------------

  /** `v` was lowered by the relaxation of the edge from `cur`, whose
      distance is `d`: strictly, to `d` plus the edge weight, with `cur`
      recorded as its predecessor and an entry pushed at the new distance. */
  ghost predicate Lowered(adj: Adjacency, cur: int, d: nat, dist0: map<int, Dist>,
                          dist: map<int, Dist>, pred: map<int, Option<int>>, queue: multiset<Entry>, v: int)
  {
    && v in dist0 && v in dist
    && cur in adj && v in adj[cur]
    && dist[v] == Some(d + adj[cur][v])
    && Exceeds(dist0[v], dist[v])
    && v in pred && pred[v] == Some(cur)
    && Entry(v, dist[v]) in queue
  }

  /** How many entries the relaxation pushed as `e`: one when `e` is the
      new distance of a vertex whose distance changed, none otherwise. */
  function PushedFor(dist0: map<int, Dist>, dist: map<int, Dist>, e: Entry): nat {
    if e.id in dist0 && e.id in dist && dist[e.id] != dist0[e.id] && e.dist == dist[e.id] then 1 else 0
  }

  /** The queue holds exactly one more entry for each vertex whose distance
      changed, at the new distance, and nothing else new. */
  ghost predicate PushedOnce(dist0: map<int, Dist>, dist: map<int, Dist>, queue0: multiset<Entry>, queue: multiset<Entry>) {
    forall e :: queue[e] == queue0[e] + PushedFor(dist0, dist, e)
  }

  /** Handling neighbour `n`, whose distance has not changed yet, keeps the
      count of pushed entries exact. */
  lemma PushedOnceStep(dist0: map<int, Dist>, dist1: map<int, Dist>, queue0: multiset<Entry>, queue1: multiset<Entry>,
                       n: int, alt: nat, dist: map<int, Dist>, queue: multiset<Entry>)
    requires PushedOnce(dist0, dist1, queue0, queue1)
    requires dist1.Keys == dist0.Keys && n in dist0 && dist1[n] == dist0[n]
    requires
      if Exceeds(dist1[n], Some(alt)) then
        dist == dist1[n := Some(alt)] && queue == queue1 + multiset{Entry(n, Some(alt))}
      else
        dist == dist1 && queue == queue1
    ensures PushedOnce(dist0, dist, queue0, queue)
  {
    forall e ensures queue[e] == queue0[e] + PushedFor(dist0, dist, e) {
      assert queue1[e] == queue0[e] + PushedFor(dist0, dist1, e);
    }
  }

  /** What relaxing every edge out of `cur` does to the three tables. */
  ghost predicate Relaxation(adj: Adjacency, cur: int,
                             dist0: map<int, Dist>, pred0: map<int, Option<int>>, queue0: multiset<Entry>,
                             dist: map<int, Dist>, pred: map<int, Option<int>>, queue: multiset<Entry>)
    requires cur in dist0 && dist0[cur].Some?
  {
    var d := dist0[cur].value;
    && dist.Keys == dist0.Keys && pred.Keys == pred0.Keys
    && dist[cur] == dist0[cur]
    && queue0 <= queue
    // a distance changes only by being lowered along an edge out of cur
    && (forall v :: v in dist0 ==> dist[v] == dist0[v] || Lowered(adj, cur, d, dist0, dist, pred, queue, v))
    // a predecessor changes only with its distance
    && (forall v :: v in pred0 && v in dist0 && dist[v] == dist0[v] ==> pred[v] == pred0[v])
    // afterwards no edge out of cur offers a shorter distance
    && (forall v :: cur in adj && v in adj[cur] ==>
          v in dist && dist[v].Some? && dist[v].value <= d + adj[cur][v])
    // the only new entries are for edges out of cur
    && (forall e :: e in queue - queue0 ==>
          cur in adj && e.id in adj[cur] && e.dist == Some(d + adj[cur][e.id]))
    // exactly one entry is pushed for each lowered vertex, at its new distance
    && PushedOnce(dist0, dist, queue0, queue)
  }

  /** The tables part way through relaxing the edges out of `cur`: the
      neighbours in `done` have been handled. */
  ghost predicate RelaxedSoFar(adj: Adjacency, cur: int, d: nat,
                               dist0: map<int, Dist>, pred0: map<int, Option<int>>, queue0: multiset<Entry>,
                               dist: map<int, Dist>, pred: map<int, Option<int>>, queue: multiset<Entry>,
                               done: seq<int>)
  {
    && dist.Keys == dist0.Keys && pred.Keys == pred0.Keys
    && cur in dist0 && dist[cur] == dist0[cur]
    && queue0 <= queue
    && (forall v :: v in dist0 ==> dist[v] == dist0[v] || (v in done && Lowered(adj, cur, d, dist0, dist, pred, queue, v)))
    && (forall v :: v in pred0 && v in dist0 && dist[v] == dist0[v] ==> pred[v] == pred0[v])
    && (forall v :: v in done ==>
          cur in adj && v in adj[cur] && v in dist && dist[v].Some? && dist[v].value <= d + adj[cur][v])
    && (forall e :: e in queue - queue0 ==>
          e.id in done && cur in adj && e.id in adj[cur] && e.dist == Some(d + adj[cur][e.id]))
  }

  /** Handling one more neighbour `n` keeps the tables in step. */
  lemma RelaxOne(adj: Adjacency, cur: int, d: nat,
                 dist0: map<int, Dist>, pred0: map<int, Option<int>>, queue0: multiset<Entry>,
                 dist1: map<int, Dist>, pred1: map<int, Option<int>>, queue1: multiset<Entry>,
                 done: seq<int>, n: int,
                 dist: map<int, Dist>, pred: map<int, Option<int>>, queue: multiset<Entry>)
    requires RelaxedSoFar(adj, cur, d, dist0, pred0, queue0, dist1, pred1, queue1, done)
    requires dist0[cur] == Some(d)
    requires cur in adj && n in adj[cur] && n in dist0 && n in pred0 && n !in done
    requires
      if Exceeds(dist1[n], Some(d + adj[cur][n])) then
        && dist == dist1[n := Some(d + adj[cur][n])]
        && pred == pred1[n := Some(cur)]
        && queue == queue1 + multiset{Entry(n, Some(d + adj[cur][n]))}
      else
        dist == dist1 && pred == pred1 && queue == queue1
    ensures RelaxedSoFar(adj, cur, d, dist0, pred0, queue0, dist, pred, queue, done + [n])
  {
    forall e | e in queue - queue0
      ensures e.id in done + [n] && cur in adj && e.id in adj[cur] && e.dist == Some(d + adj[cur][e.id])
    {
      if e !in queue1 - queue0 {
        assert queue[e] > queue1[e];
      }
    }
  }

  /** Once every neighbour has been handled, the relaxation is complete. */
  lemma RelaxedAll(adj: Adjacency, cur: int, d: nat,
                   dist0: map<int, Dist>, pred0: map<int, Option<int>>, queue0: multiset<Entry>,
                   dist: map<int, Dist>, pred: map<int, Option<int>>, queue: multiset<Entry>,
                   done: seq<int>)
    requires RelaxedSoFar(adj, cur, d, dist0, pred0, queue0, dist, pred, queue, done)
    requires PushedOnce(dist0, dist, queue0, queue)
    requires dist0[cur] == Some(d)
    requires forall v :: v in done <==> cur in adj && v in adj[cur]
    ensures Relaxation(adj, cur, dist0, pred0, queue0, dist, pred, queue)
  {
  }

  /** One neighbour's turn: when the edge from `currentV` offers a strictly
      shorter distance, lower it, push an entry and record the predecessor. */
  method RelaxEdge(g: Graph<nat>, currentV: int, currNeighbor: int, ghost d: nat,
                   ghost dist0: map<int, Dist>, ghost pred0: map<int, Option<int>>, ghost queue0: multiset<Entry>,
                   ghost done: seq<int>,
                   dist1: map<int, Dist>, pred1: map<int, Option<int>>, queue1: multiset<Entry>)
    returns (dist: map<int, Dist>, pred: map<int, Option<int>>, queue: multiset<Entry>)
    requires RelaxedSoFar(g.adj, currentV, d, dist0, pred0, queue0, dist1, pred1, queue1, done)
    requires PushedOnce(dist0, dist1, queue0, queue1)
    requires Closed(g.adj)
    requires dist0[currentV] == Some(d)
    requires currentV in g.adj && currNeighbor in g.adj[currentV]
    requires currNeighbor in dist0 && currNeighbor in pred0 && currNeighbor !in done
    ensures RelaxedSoFar(g.adj, currentV, d, dist0, pred0, queue0, dist, pred, queue, done + [currNeighbor])
    ensures PushedOnce(dist0, dist, queue0, queue)
  {
    var found, weight := g.GetWeight(currentV, currNeighbor, 0);
    var altDistance := dist1[currentV].value + weight;
    dist, pred, queue := dist1, pred1, queue1;
    if Exceeds(dist[currNeighbor], Some(altDistance)) {
      dist := dist[currNeighbor := Some(altDistance)];
      queue := queue + multiset{Entry(currNeighbor, Some(altDistance))};
      pred := pred[currNeighbor := Some(currentV)];
    }
    RelaxOne(g.adj, currentV, d, dist0, pred0, queue0, dist1, pred1, queue1, done, currNeighbor, dist, pred, queue);
    PushedOnceStep(dist0, dist1, queue0, queue1, currNeighbor, altDistance, dist, queue);
  }

  /** The inner loop of the search: for each neighbour of `currentV`, in
      ascending order, lower its distance if the edge from `currentV` is
      strictly shorter, record the predecessor and push an entry. */
  method RelaxNeighbors(g: Graph<nat>, currentV: int,
                        dist0: map<int, Dist>, pred0: map<int, Option<int>>, queue0: multiset<Entry>)
    returns (dist: map<int, Dist>, pred: map<int, Option<int>>, queue: multiset<Entry>)
    requires Closed(g.adj)
    requires currentV in dist0 && dist0[currentV].Some?
    requires g.adj.Keys <= dist0.Keys && g.adj.Keys <= pred0.Keys
    ensures Relaxation(g.adj, currentV, dist0, pred0, queue0, dist, pred, queue)
  {
    dist, pred, queue := dist0, pred0, queue0;
    ghost var d := dist0[currentV].value;
    var neighbors := g.Neighbors(currentV);
    for i := 0 to |neighbors|
      invariant RelaxedSoFar(g.adj, currentV, d, dist0, pred0, queue0, dist, pred, queue, neighbors[..i])
      invariant PushedOnce(dist0, dist, queue0, queue)
    {
      var currNeighbor := neighbors[i];
      Keys.NotBefore(neighbors, i);
      assert currNeighbor in neighbors;
      dist, pred, queue := RelaxEdge(g, currentV, currNeighbor, d, dist0, pred0, queue0, neighbors[..i], dist, pred, queue);
      assert neighbors[..i + 1] == neighbors[..i] + [currNeighbor];
    }
    assert neighbors[..|neighbors|] == neighbors;
    RelaxedAll(g.adj, currentV, d, dist0, pred0, queue0, dist, pred, queue, neighbors);
  }

  // ---------------------------------------------------------------------
  // Seeding the queue
  // ---------------------------------------------------------------------

  /** How often the seeded queue holds `e`: once for each vertex at
      infinity, plus the start at 0. */
  function SeedCount(vertices: set<int>, start: int, e: Entry): (n: nat)
    ensures n <= 2
    ensures n > 0 <==> (e.id in vertices && e.dist == None) || e == Entry(start, Some(0))
  {
    (if e.id in vertices && e.dist == None then 1 else 0) + (if e == Entry(start, Some(0)) then 1 else 0)
  }

  /** Every vertex enters the queue at infinity with no predecessor; then
      the start is set to 0 and pushed at 0, whether or not it is a vertex. */
  method Seed(g: Graph<nat>, start: int)
    returns (queue: multiset<Entry>, dist: map<int, Dist>, pred: map<int, Option<int>>)
    ensures dist.Keys == g.adj.Keys + {start}
    ensures dist[start] == Some(0)
    ensures forall v :: v in g.adj && v != start ==> dist[v] == None
    ensures pred.Keys == g.adj.Keys
    ensures forall v :: v in pred ==> pred[v] == None
    ensures forall e :: queue[e] == SeedCount(g.adj.Keys, start, e)
  {
    var vertices := g.GetVertices();
    queue, dist, pred := multiset{}, map[], map[];
    for i := 0 to |vertices|
      invariant forall v :: v in dist <==> v in vertices[..i]
      invariant forall v :: v in dist ==> dist[v] == None
      invariant pred.Keys == dist.Keys
      invariant forall v :: v in pred ==> pred[v] == None
      invariant forall e :: queue[e] == (if e.id in vertices[..i] && e.dist == None then 1 else 0)
    {
      var currVertex := vertices[i];
      assert currVertex !in vertices[..i];
      assert vertices[..i + 1] == vertices[..i] + [currVertex];
      queue := queue + multiset{Entry(currVertex, None)};
      dist := dist[currVertex := None];
      pred := pred[currVertex := None];
    }
    assert vertices[..|vertices|] == vertices;
    forall v ensures v in dist <==> v in g.adj {
      assert v in vertices[..|vertices|] <==> v in vertices;
    }
    assert dist.Keys == g.adj.Keys;
    dist := dist[start := Some(0)];
    queue := queue + multiset{Entry(start, Some(0))};
  }

  // ---------------------------------------------------------------------
  // One step of the main loop at a time
  // ---------------------------------------------------------------------

  lemma SeedEstablishes(adj: Adjacency, start: int, dist: map<int, Dist>,
                        pred: map<int, Option<int>>, queue: multiset<Entry>)
    requires Closed(adj)
    requires dist.Keys == adj.Keys + {start}
    requires dist[start] == Some(0)
    requires forall v :: v in adj && v != start ==> dist[v] == None
    requires pred.Keys == adj.Keys
    requires forall v :: v in pred ==> pred[v] == None
    requires forall e :: queue[e] == SeedCount(adj.Keys, start, e)
    ensures Inv(adj, start, [], {}, map[], dist, pred, queue)
  {
    assert queue[Entry(start, Some(0))] >= 1;
  }

  /** An entry for a vertex visited before is dropped and nothing else changes. */
  lemma SkipPreserves(adj: Adjacency, start: int, visited: seq<int>, S: set<int>, rank: map<int, nat>,
                      dist: map<int, Dist>, pred: map<int, Option<int>>, queue: multiset<Entry>, top: Entry)
    requires Inv(adj, start, visited, S, rank, dist, pred, queue)
    requires top in queue && top.id in S
    ensures Inv(adj, start, visited, S, rank, dist, pred, queue - multiset{top})
  {
    var rest := queue - multiset{top};
    forall v | v in dist && v !in S && dist[v].Some? ensures Entry(v, dist[v]) in rest {
      assert rest[Entry(v, dist[v])] == queue[Entry(v, dist[v])];
    }
  }

  /** When the top entry's vertex is unreached, every reached vertex has
      been visited: nothing the search could still do would change a table. */
  lemma StopIsFinal(adj: Adjacency, start: int, visited: seq<int>, S: set<int>, rank: map<int, nat>,
                    dist: map<int, Dist>, pred: map<int, Option<int>>, queue: multiset<Entry>, top: Entry)
    requires Inv(adj, start, visited, S, rank, dist, pred, queue)
    requires IsTop(top, queue) && top.id in dist && dist[top.id] == None
    ensures AllReachedVisited(S, dist)
  {
    forall e | e in queue ensures e.dist == None {
      TopIsNearest(top, queue, e);
    }
  }

  /** The entry released next is at its vertex's distance, which no finite
      entry undercuts. */
  lemma TopIsCurrent(adj: Adjacency, start: int, visited: seq<int>, S: set<int>, rank: map<int, nat>,
                     dist: map<int, Dist>, pred: map<int, Option<int>>, queue: multiset<Entry>, top: Entry)
    requires Inv(adj, start, visited, S, rank, dist, pred, queue)
    requires IsTop(top, queue) && top.id in dist && top.id !in S && dist[top.id].Some?
    ensures top.dist == dist[top.id]
    ensures forall e :: e in queue && e.dist.Some? ==> dist[top.id].value <= e.dist.value
    ensures forall u :: u in S ==> dist[u].value <= dist[top.id].value
  {
    var own := Entry(top.id, dist[top.id]);
    assert own in queue;
    TopIsNearest(top, queue, own);
    forall e | e in queue && e.dist.Some? ensures dist[top.id].value <= e.dist.value {
      TopIsNearest(top, queue, e);
    }
  }

  /** Relaxing from the vertex just released leaves every visited vertex,
      and that vertex itself, at its distance, and raises no distance. */
  lemma RelaxFacts(adj: Adjacency, S: set<int>, cur: int, dist: map<int, Dist>, pred: map<int, Option<int>>,
                   rest: multiset<Entry>, dist2: map<int, Dist>, pred2: map<int, Option<int>>, queue2: multiset<Entry>)
    requires S <= dist.Keys
    requires cur in dist && dist[cur].Some?
    requires forall u :: u in S ==> dist[u].Some? && dist[u].value <= dist[cur].value
    requires Relaxation(adj, cur, dist, pred, rest, dist2, pred2, queue2)
    ensures forall u :: u in S + {cur} ==> dist2[u] == dist[u]
    ensures forall v :: v in dist && dist[v].Some? ==> dist2[v].Some? && dist2[v].value <= dist[v].value
  {
    var d := dist[cur].value;
    forall u | u in S + {cur} ensures dist2[u] == dist[u] {
      assert dist2[u] == dist[u] || Lowered(adj, cur, d, dist, dist2, pred2, queue2, u);
    }
    forall v | v in dist && dist[v].Some? ensures dist2[v].Some? && dist2[v].value <= dist[v].value {
      assert dist2[v] == dist[v] || Lowered(adj, cur, d, dist, dist2, pred2, queue2, v);
    }
  }

  lemma VisitLogStep(visited: seq<int>, S: set<int>, rank: map<int, nat>, dist: map<int, Dist>,
                     cur: int, dist2: map<int, Dist>)
    requires VisitLog(visited, S, rank, dist)
    requires cur in dist && dist[cur].Some? && cur !in S
    requires forall u :: u in S ==> dist[u].value <= dist[cur].value
    requires dist2.Keys == dist.Keys
    requires forall u :: u in S + {cur} ==> dist2[u] == dist[u]
    ensures VisitLog(visited + [cur], S + {cur}, rank[cur := |visited|], dist2)
  {
    var visited1, S1, rank1 := visited + [cur], S + {cur}, rank[cur := |visited|];
    forall i | 0 <= i < |visited1| ensures visited1[i] in S1 && rank1[visited1[i]] == i {
      if i < |visited| {
        assert visited1[i] == visited[i];
      }
    }
    forall u | u in S1 ensures dist2[u].Some? {
    }
    forall i, j | 0 <= i < j < |visited1|
      ensures dist2[visited1[i]].value <= dist2[visited1[j]].value
    {
      if j < |visited| {
        assert visited1[i] == visited[i] && visited1[j] == visited[j];
      } else {
        assert visited1[i] == visited[i] && visited[i] in S;
      }
    }
  }

  lemma RelaxedStep(adj: Adjacency, S: set<int>, cur: int, dist: map<int, Dist>, dist2: map<int, Dist>)
    requires Relaxed(adj, S, dist)
    requires S <= dist.Keys && cur in dist && dist[cur].Some?
    requires dist2.Keys == dist.Keys
    requires forall u :: u in S + {cur} ==> dist2[u] == dist[u]
    requires forall v :: v in dist && dist[v].Some? ==> dist2[v].Some? && dist2[v].value <= dist[v].value
    requires forall v :: cur in adj && v in adj[cur] ==>
      v in dist2 && dist2[v].Some? && dist2[v].value <= dist[cur].value + adj[cur][v]
    ensures Relaxed(adj, S + {cur}, dist2)
  {
    forall u, v | u in S + {cur} && u in adj && v in adj[u]
      ensures dist2[v].Some? && dist2[v].value <= dist2[u].value + adj[u][v]
    {
      if u != cur {
        assert dist[v].Some? && dist[v].value <= dist[u].value + adj[u][v];
      }
    }
  }

  lemma TreeStep(adj: Adjacency, start: int, visited: seq<int>, S: set<int>, rank: map<int, nat>,
                 dist: map<int, Dist>, pred: map<int, Option<int>>, rest: multiset<Entry>, cur: int,
                 dist2: map<int, Dist>, pred2: map<int, Option<int>>, queue2: multiset<Entry>)
    requires Tree(adj, start, S, rank, dist, pred)
    requires VisitLog(visited, S, rank, dist)
    requires pred.Keys <= dist.Keys
    requires cur in dist && dist[cur].Some? && cur !in S
    requires Relaxation(adj, cur, dist, pred, rest, dist2, pred2, queue2)
    requires forall u :: u in S + {cur} ==> dist2[u] == dist[u]
    ensures Tree(adj, start, S + {cur}, rank[cur := |visited|], dist2, pred2)
  {
    var S1, rank1 := S + {cur}, rank[cur := |visited|];
    var d := dist[cur].value;
    forall v | v in pred2
      ensures match pred2[v]
        case None => v == start || (v in dist2 && dist2[v] == None)
        case Some(u) =>
          && u in S1 && u in rank1 && u in adj && v in adj[u] && u in dist2 && v in dist2 && dist2[u].Some?
          && dist2[v] == Some(dist2[u].value + adj[u][v])
          && (v in S1 ==> v in rank1 && rank1[u] < rank1[v])
    {
      assert dist2[v] == dist[v] || Lowered(adj, cur, d, dist, dist2, pred2, queue2, v);
      if dist2[v] == dist[v] {
        assert pred2[v] == pred[v];
        if pred[v].Some? {
          var u := pred[v].value;
          assert u in S && rank[u] < |visited|;
        }
      }
    }
  }

  lemma QueuedStep(adj: Adjacency, S: set<int>, cur: int, dist: map<int, Dist>, pred: map<int, Option<int>>,
                   queue: multiset<Entry>, top: Entry,
                   dist2: map<int, Dist>, pred2: map<int, Option<int>>, queue2: multiset<Entry>)
    requires Queued(S, dist, queue)
    requires top in queue && top.id == cur && cur in dist && dist[cur].Some?
    requires Relaxation(adj, cur, dist, pred, queue - multiset{top}, dist2, pred2, queue2)
    ensures Queued(S + {cur}, dist2, queue2)
  {
    var d := dist[cur].value;
    var rest := queue - multiset{top};
    forall v | v in dist2 && v !in S + {cur} && dist2[v].Some? ensures Entry(v, dist2[v]) in queue2 {
      assert dist2[v] == dist[v] || Lowered(adj, cur, d, dist, dist2, pred2, queue2, v);
      if dist2[v] == dist[v] {
        assert Entry(v, dist[v]) in queue;
        assert rest[Entry(v, dist[v])] == queue[Entry(v, dist[v])];
      }
    }
  }

  lemma BoundedStep(adj: Adjacency, cur: int, dist: map<int, Dist>, pred: map<int, Option<int>>,
                    rest: multiset<Entry>, dist2: map<int, Dist>, pred2: map<int, Option<int>>, queue2: multiset<Entry>)
    requires Bounded(dist, rest)
    requires cur in dist && dist[cur].Some?
    requires Relaxation(adj, cur, dist, pred, rest, dist2, pred2, queue2)
    requires forall v :: v in dist && dist[v].Some? ==> dist2[v].Some? && dist2[v].value <= dist[v].value
    ensures Bounded(dist2, queue2)
  {
    forall e | e in queue2
      ensures e.id in dist2 && (e.dist.Some? ==> dist2[e.id].Some? && dist2[e.id].value <= e.dist.value)
    {
      if e !in rest {
        assert e in queue2 - rest;
      }
    }
  }

  lemma FrontierStep(adj: Adjacency, S: set<int>, cur: int, dist: map<int, Dist>, pred: map<int, Option<int>>,
                     rest: multiset<Entry>, dist2: map<int, Dist>, pred2: map<int, Option<int>>, queue2: multiset<Entry>)
    requires Frontier(S, dist, rest)
    requires S <= dist.Keys && cur in dist && dist[cur].Some?
    requires forall u :: u in S ==> dist[u].Some? && dist[u].value <= dist[cur].value
    requires forall e :: e in rest && e.dist.Some? ==> dist[cur].value <= e.dist.value
    requires Relaxation(adj, cur, dist, pred, rest, dist2, pred2, queue2)
    requires forall u :: u in S + {cur} ==> dist2[u] == dist[u]
    ensures Frontier(S + {cur}, dist2, queue2)
  {
    forall u, e | u in S + {cur} && e in queue2 && e.dist.Some?
      ensures dist2[u].Some? && dist2[u].value <= e.dist.value
    {
      if e !in rest {
        assert e in queue2 - rest;
      }
    }
  }

  /** Visiting the top vertex and relaxing its edges keeps the tables. */
  lemma VisitKeepsSearching(adj: Adjacency, start: int, visited: seq<int>, S: set<int>, rank: map<int, nat>,
                            dist: map<int, Dist>, pred: map<int, Option<int>>, queue: multiset<Entry>, top: Entry,
                            dist2: map<int, Dist>, pred2: map<int, Option<int>>, queue2: multiset<Entry>)
    requires Inv(adj, start, visited, S, rank, dist, pred, queue)
    requires IsTop(top, queue) && top.id in dist && top.id !in S && dist[top.id].Some?
    requires Relaxation(adj, top.id, dist, pred, queue - multiset{top}, dist2, pred2, queue2)
    ensures Searching(adj, start, visited + [top.id], S + {top.id}, rank[top.id := |visited|], dist2, pred2)
  {
    var cur := top.id;
    var rest := queue - multiset{top};
    TopIsCurrent(adj, start, visited, S, rank, dist, pred, queue, top);
    RelaxFacts(adj, S, cur, dist, pred, rest, dist2, pred2, queue2);
    VisitLogStep(visited, S, rank, dist, cur, dist2);
    RelaxedStep(adj, S, cur, dist, dist2);
    TreeStep(adj, start, visited, S, rank, dist, pred, rest, cur, dist2, pred2, queue2);
    assert dist2[start] == dist[start] || Lowered(adj, cur, dist[cur].value, dist, dist2, pred2, queue2, start);
  }

  /** Visiting the top vertex and relaxing its edges keeps the queue in step. */
  lemma VisitKeepsQueue(adj: Adjacency, start: int, visited: seq<int>, S: set<int>, rank: map<int, nat>,
                        dist: map<int, Dist>, pred: map<int, Option<int>>, queue: multiset<Entry>, top: Entry,
                        dist2: map<int, Dist>, pred2: map<int, Option<int>>, queue2: multiset<Entry>)
    requires Inv(adj, start, visited, S, rank, dist, pred, queue)
    requires IsTop(top, queue) && top.id in dist && top.id !in S && dist[top.id].Some?
    requires Relaxation(adj, top.id, dist, pred, queue - multiset{top}, dist2, pred2, queue2)
    ensures Queued(S + {top.id}, dist2, queue2)
    ensures Bounded(dist2, queue2)
    ensures Frontier(S + {top.id}, dist2, queue2)
  {
    var cur := top.id;
    var rest := queue - multiset{top};
    TopIsCurrent(adj, start, visited, S, rank, dist, pred, queue, top);
    RelaxFacts(adj, S, cur, dist, pred, rest, dist2, pred2, queue2);
    QueuedStep(adj, S, cur, dist, pred, queue, top, dist2, pred2, queue2);
    BoundedStep(adj, cur, dist, pred, rest, dist2, pred2, queue2);
    FrontierStep(adj, S, cur, dist, pred, rest, dist2, pred2, queue2);
  }

  /** A walk from the start ends at a reached vertex, and costs at least
      that vertex's distance. */
  lemma {:induction false} PathBound(adj: Adjacency, start: int, S: set<int>, dist: map<int, Dist>, p: seq<int>)
    requires start in dist && dist[start] == Some(0)
    requires Relaxed(adj, S, dist) && AllReachedVisited(S, dist)
    requires IsPath(adj, p) && p[0] == start
    ensures Last(p) in dist && dist[Last(p)].Some? && dist[Last(p)].value <= PathCost(adj, p)
    decreases |p|
  {
    if |p| > 1 {
      var q := p[..|p| - 1];
      PathBound(adj, start, S, dist, q);
      assert Last(q) == p[|p| - 2];
    }
  }

  // ---------------------------------------------------------------------
  // The search
  // ---------------------------------------------------------------------

  /** Visits `currentV`, released from the queue at its own distance and not
      visited before: it joins the visited set and its edges are relaxed. */
  method Visit(g: Graph<nat>, ghost start: int, currentV: int,
               visited0: seq<int>, S0: set<int>, ghost rank0: map<int, nat>,
               dist0: map<int, Dist>, pred0: map<int, Option<int>>, queue0: multiset<Entry>,
               ghost queued: multiset<Entry>, ghost top: Entry)
    returns (visited: seq<int>, S: set<int>, ghost rank: map<int, nat>,
             dist: map<int, Dist>, pred: map<int, Option<int>>, queue: multiset<Entry>)
    requires Closed(g.adj)
    requires Inv(g.adj, start, visited0, S0, rank0, dist0, pred0, queued)
    requires IsTop(top, queued) && queue0 == queued - multiset{top} && top.id == currentV
    requires currentV in dist0 && currentV !in S0 && dist0[currentV].Some?
    ensures Inv(g.adj, start, visited, S, rank, dist, pred, queue)
    ensures visited == visited0 + [currentV] && S == S0 + {currentV}
    ensures dist.Keys == dist0.Keys
    ensures |dist.Keys - S| < |dist0.Keys - S0|
  {
    S := S0 + {currentV};
    visited := visited0 + [currentV];
    rank := rank0[currentV := |visited0|];
    dist, pred, queue := RelaxNeighbors(g, currentV, dist0, pred0, queue0);
    VisitKeepsSearching(g.adj, start, visited0, S0, rank0, dist0, pred0, queued, top, dist, pred, queue);
    VisitKeepsQueue(g.adj, start, visited0, S0, rank0, dist0, pred0, queued, top, dist, pred, queue);
    OneFewer(dist0.Keys, S0, currentV);
  }

  /** Visiting one more vertex leaves one fewer to visit. */
  lemma OneFewer(K: set<int>, S: set<int>, c: int)
    requires c in K && c !in S
    ensures |K - (S + {c})| < |K - S|
  {
    assert K - (S + {c}) == (K - S) - {c};
  }

  /** Dijkstra's algorithm from `start`. `rank` gives each visited vertex its
      position in `visited`; it exists only for the proof. */
  method Dijkstra(g: Graph<nat>, start: int)
    returns (visited: seq<int>, dist: map<int, Dist>, pred: map<int, Option<int>>, ghost rank: map<int, nat>)
    requires Closed(g.adj)
    ensures Tables(g.adj, start, dist, pred)
    ensures NoShorterWalk(g.adj, start, dist)
    ensures PredecessorTree(g.adj, start, dist, pred, rank)
    ensures VisitOrder(visited, dist, rank)
  {
    var queue;
    queue, dist, pred := Seed(g, start);
    var visitedSet: set<int> := {};
    visited := [];
    rank := map[];
    SeedEstablishes(g.adj, start, dist, pred, queue);
    while queue != multiset{}
      invariant Inv(g.adj, start, visited, visitedSet, rank, dist, pred, queue)
      decreases |dist.Keys - visitedSet|, |queue|
    {
      TopExists(queue);
      var top :| IsTop(top, queue);
      ghost var queued := queue;
      queue := queue - multiset{top};
      var currentV := top.id;
      if dist[currentV] == None {
        StopIsFinal(g.adj, start, visited, visitedSet, rank, dist, pred, queued, top);
        break;
      } else if currentV in visitedSet {
        SkipPreserves(g.adj, start, visited, visitedSet, rank, dist, pred, queued, top);
        continue;
      }
      visited, visitedSet, rank, dist, pred, queue :=
        Visit(g, start, currentV, visited, visitedSet, rank, dist, pred, queue, queued, top);
    }
    FinishPaths(g.adj, start, visitedSet, dist);
    FinishTree(g.adj, start, visited, visitedSet, rank, dist, pred);
    FinishVisited(visited, visitedSet, rank, dist);
  }

  lemma FinishPaths(adj: Adjacency, start: int, S: set<int>, dist: map<int, Dist>)
    requires start in dist && dist[start] == Some(0)
    requires Relaxed(adj, S, dist) && AllReachedVisited(S, dist)
    ensures NoShorterWalk(adj, start, dist)
  {
    forall p | IsPath(adj, p) && p[0] == start
      ensures Last(p) in dist && dist[Last(p)].Some? && dist[Last(p)].value <= PathCost(adj, p)
    {
      PathBound(adj, start, S, dist, p);
    }
  }

  lemma FinishTree(adj: Adjacency, start: int, visited: seq<int>, S: set<int>, rank: map<int, nat>,
                   dist: map<int, Dist>, pred: map<int, Option<int>>)
    requires Tables(adj, start, dist, pred) && VisitLog(visited, S, rank, dist)
    requires Tree(adj, start, S, rank, dist, pred)
    requires AllReachedVisited(S, dist)
    ensures PredecessorTree(adj, start, dist, pred, rank)
  {
  }

  lemma FinishVisited(visited: seq<int>, S: set<int>, rank: map<int, nat>, dist: map<int, Dist>)
    requires VisitLog(visited, S, rank, dist)
    requires AllReachedVisited(S, dist)
    ensures VisitOrder(visited, dist, rank)
  {
    forall i, j | 0 <= i < j < |visited| ensures visited[i] != visited[j] {
      assert rank[visited[i]] == i && rank[visited[j]] == j;
    }
    forall v | v in dist && dist[v].Some? ensures v in visited {
      assert visited[rank[v]] == v;
    }
  }
}
