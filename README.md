# OpenStreetMaps shortest path: a verified model of the route finder

This project models the core of a campus route finder built on OpenStreetMap
data. The model covers these parts:

- The graph container (`graph.h`) is a directed weighted graph stored as a
  map from each vertex to a map from each of its neighbours to the edge
  weight, with a vertex counter and an edge counter.
- The application (`application.cpp`) does five things:
  - It builds the graph by adding an edge in both directions between
    consecutive nodes of every footway.
  - It looks up the two buildings the user names (`checkForMatch`).
  - For each building it finds the nearest footway node
    (`findStartAndDest`).
  - It runs Dijkstra's algorithm from the start node. The priority queue
    orders entries with the `prioritize` comparator and may hold duplicate
    entries. A visited set makes the search skip those duplicates. The
    search stops early at the first entry whose vertex is at infinity.
  - It reads the route back from the predecessor table onto a stack.

The model is written as follows:

- Dafny classes and methods where the source changes state: the `Graph`
  class and the loops of the application.
- Functions and lemmas where the source computes values: the comparator
  and the building match.

Each method is proved against a specification. The main results are:

- The graph's counters always agree with its adjacency map.
- Building the footway edges keeps the graph symmetric. When the build
  starts from vertices without edges, as the program's does, the result
  is symmetric. Every edge afterwards either was already there or joins
  the two ends of a footway leg. Each leg whose two ends are vertices
  becomes an edge both ways; a leg with an end that is not a vertex is
  dropped, since `addEdge` fails for it.
- The nearest-node scan returns the first nearest node.
- Dijkstra's distances are the costs of shortest walks. Its visiting order
  is by non-decreasing distance. Its predecessor table spells out walks of
  exactly that cost.
- Reconstructing the route yields such a walk from the start to the
  destination.

Representation choices:

- Vertex ids are `int`. Edge weights and distances are `nat`, and the
  program's `INF` is `None` of `Option<nat>`. The predecessor `-1` is
  `None` of `Option<int>`.
- The priority queue is a `multiset` of entries. The entry it releases is
  the unique least entry under `prioritize`.
- The ascending order in which a C++ `std::map` or `std::set` is iterated is
  produced by `Keys.Ascending`.
- The great-circle distance function `distBetween2Points` (in `dist.h`) is a
  parameter of type `(real, real, real, real) -> nat`.

When the start vertex is not in the graph, the code still gives it
distance 0 and queues it, and so does the model.

## Model

| member | source | states |
|---|---|---|
| Graphs.Graph.constructor | graph.h:49-52 | a new graph is empty, with both counters at 0, and keeps the invariant |
| Graphs.Graph.Copy | graph.h:57-62 | the copy has the same adjacency and counters, keeps the invariant if the original does, and compares equal to it |
| Graphs.Graph.Assign | graph.h:71-77 | after assignment the graph has the other's adjacency and counters and compares equal to it |
| Graphs.Graph.Equals | graph.h:82-90 | for graphs that keep the invariant, equality holds exactly when the adjacency maps are equal |
| Graphs.Graph.NumVertices | graph.h:101-103 | the vertex count is the number of vertices in the adjacency map |
| Graphs.Graph.NumEdges | graph.h:110-112 | the edge count is the number of edges, and equals the sum of the out-degrees |
| Graphs.EdgeCountIsOutDegreeSum | graph.h:110-112 | the number of (from, to) edge pairs equals the sum of the sizes of the neighbour maps |
| Graphs.RowSize | graph.h:110-112 | the edges out of one vertex are as many as its neighbours |
| Graphs.EdgeSetSplit | graph.h:110-112 | the edge set splits into the edges out of one vertex and the rest, disjointly |
| Graphs.Graph.AddVertex | graph.h:121-136 | adds a vertex with no neighbours exactly when it is new, reports whether it did, counts it, and keeps the invariant; otherwise nothing changes |
| Graphs.EdgeSetUpdate | graph.h:163-177 | setting a weight on an existing edge leaves the edge set unchanged; on a new edge it adds exactly that pair, which was absent |
| Graphs.Graph.AddEdge | graph.h:147-180 | fails and changes nothing unless both ends are vertices; otherwise sets the weight of the edge, counts it only if it is new, and keeps the invariant |
| Graphs.Graph.GetWeight | graph.h:191-224 | succeeds exactly when both ends are vertices and the edge exists, and then yields its weight; on failure the caller's value comes back as it went in |
| Graphs.Graph.Neighbors | graph.h:234-248 | yields the out-neighbours of a vertex in ascending order, or none for an unknown vertex |
| Graphs.Graph.GetVertices | graph.h:256-264 | yields every vertex exactly once, in ascending order |
| Keys.Ascending | graph.h:256-264 | enumerates a set of keys strictly ascending: each key once and nothing else |
| Keys.LeastExists | graph.h:256-264 | a non-empty set of keys has a least element |
| Keys.NotBefore | graph.h:234-248 | in a strictly ascending sequence no element repeats an earlier one |
| Buildings.FindFrom | application.cpp:52 | finds the first position at or after `from` where the query occurs as a substring, or none when it occurs nowhere there |
| Buildings.CheckForMatch | application.cpp:46-69 | a building matches exactly when its abbreviation equals the query or the query occurs in its full name; only a match overwrites the name and coordinates |
| Buildings.EmptyQueryMatches | application.cpp:52 | an empty query matches every building, as `find("")` does |
| Priority.Prioritize | application.cpp:73-85 | true when p1 is released after p2: it is farther, or equally far with the larger id; infinity exceeds every finite distance and equals itself |
| Priority.IsTop | application.cpp:131-132 | the entry the queue releases: it is queued, no queued entry goes before it, and every other queued entry goes after it |
| Priority.PrioritizeIsStrictTotalOrder | application.cpp:73-85 | the comparator is irreflexive, asymmetric, transitive and total on distinct entries |
| Priority.TopExists | application.cpp:131-132 | a non-empty queue has an entry that no other entry goes before |
| Priority.TopIsUnique | application.cpp:131-132 | that entry is unique |
| Priority.TopIsNearest | application.cpp:73-85 | the released entry has the least distance in the queue, and the least id among entries at that distance |
| Paths.Extend | application.cpp:153-168 | extending a walk by an edge adds that edge's weight to its cost |
| ShortestPath.SeedCount | application.cpp:109-118 | the seeded queue holds each vertex once at infinity and the start once at 0, and nothing else |
| ShortestPath.Seed | application.cpp:109-118 | every vertex gets distance infinity and no predecessor and is queued at infinity; then the start gets distance 0 and is queued at 0 |
| ShortestPath.RelaxOne | application.cpp:153-168 | handling one more neighbour keeps the relaxation's bookkeeping: a distance changes only by being strictly lowered along the edge, together with its predecessor and a new entry |
| ShortestPath.RelaxedAll | application.cpp:153-168 | once every neighbour is handled, no edge out of the current vertex offers a shorter distance |
| ShortestPath.PushedOnceStep | application.cpp:164-168 | handling a neighbour not handled before keeps the queue at exactly one new entry per lowered vertex, at its new distance |
| ShortestPath.RelaxEdge | application.cpp:153-168 | one neighbour's turn: its distance is lowered, with the predecessor recorded and one entry pushed, exactly when the edge from the current vertex is strictly shorter |
| ShortestPath.RelaxNeighbors | application.cpp:153-168 | relaxing every edge out of the current vertex lowers exactly the distances the edge strictly improves and records the predecessor for each; the queue gains exactly one entry per lowered vertex, at its new distance, and nothing else changes |
| ShortestPath.SeedEstablishes | application.cpp:109-126 | the seeded tables and queue satisfy the main loop's invariant |
| ShortestPath.SkipPreserves | application.cpp:141-142 | dropping an entry of an already visited vertex keeps the invariant |
| ShortestPath.StopIsFinal | application.cpp:139-140 | when the released entry's vertex is at infinity, every reached vertex has been visited, so stopping early loses nothing |
| ShortestPath.TopIsCurrent | application.cpp:131-146 | an unvisited reached vertex is released at its own distance, which no queued entry and no visited vertex exceeds |
| ShortestPath.RelaxFacts | application.cpp:153-168 | relaxing leaves visited vertices' distances unchanged and never raises a distance |
| ShortestPath.VisitLogStep | application.cpp:143-146 | appending the released vertex keeps the visit log in non-decreasing order of distance |
| ShortestPath.RelaxedStep | application.cpp:143-168 | after the visit every edge out of a visited vertex is relaxed |
| ShortestPath.TreeStep | application.cpp:143-168 | after the visit every predecessor is a visited vertex whose distance plus the edge weight is the recorded distance |
| ShortestPath.QueuedStep | application.cpp:131-168 | after the visit every unvisited reached vertex is queued at its distance |
| ShortestPath.BoundedStep | application.cpp:153-168 | after the visit no queued entry undercuts its vertex's distance |
| ShortestPath.FrontierStep | application.cpp:131-168 | after the visit no visited vertex is farther than a finite queued entry |
| ShortestPath.VisitKeepsSearching | application.cpp:143-168 | a visit keeps the tables, the visit log, the relaxation and the predecessor facts |
| ShortestPath.VisitKeepsQueue | application.cpp:131-168 | a visit keeps the queue facts |
| ShortestPath.PathBound | application.cpp:126-170 | once every reached vertex is visited and relaxed, every walk from the start ends at a reached vertex no farther than the walk's cost |
| ShortestPath.Visit | application.cpp:143-168 | visiting the released vertex and relaxing its edges keeps the invariant and leaves one fewer vertex to visit |
| ShortestPath.OneFewer | application.cpp:126-170 | visiting a new vertex leaves one fewer unvisited vertex, so the main loop ends |
| ShortestPath.Dijkstra | application.cpp:88-173 | the distance table covers the vertices and the start, which is at 0; no walk from the start is shorter than the distance of its end; every reached vertex other than the start has a predecessor whose distance plus the edge weight is its own and which was visited before it; the visited list holds each reached vertex once, in non-decreasing order of distance |
| ShortestPath.FinishPaths | application.cpp:126-170 | at the end no walk from the start is shorter than the recorded distance of its end |
| ShortestPath.FinishTree | application.cpp:126-170 | at the end the predecessor table is a tree of shortest-distance edges ordered by visit |
| ShortestPath.FinishVisited | application.cpp:97-172 | at the end the visited list holds exactly the reached vertices, each once, in non-decreasing order of distance |
| Route.TreeChains | application.cpp:509-518 | following predecessors always goes to a vertex visited earlier |
| Route.ChainPath | application.cpp:509-518 | the chain of predecessors back from a vertex ends at that vertex |
| Route.ChainPathWalks | application.cpp:509-518 | for a reached vertex the chain is a walk from the start whose cost is its distance; an unreached vertex's chain is the vertex alone |
| Route.ReconstructPath | application.cpp:509-518 | the stack holds the chain of predecessors back from the destination, top first; for the search's tables it is a walk from the start to the destination costing the destination's distance, or the destination alone when it is unreached |
| Route.ShortestDistances | application.cpp:486-518 | a vertex is reached exactly when some walk from the start ends at it, and then its distance is the cost of a walk and no walk is cheaper |
| Nearest.ScanOrderMembers | application.cpp:210-212 | the scan visits exactly the nodes of the footways |
| Nearest.FootwayKnown | application.cpp:210-214 | when every node the scan visits has an entry in the node table, so does every node of each footway |
| Nearest.FirstNearest | application.cpp:235-244 | the running minimum's position lies within the scanned nodes |
| Nearest.FirstNearestIsFirstMinimum | application.cpp:235-244 | no scanned node is nearer than the pick, and every node before it is strictly farther |
| Nearest.TracksStep | application.cpp:235-244 | a node replaces the running minimum only when it is strictly nearer, which keeps the minimum on the first nearest node |
| Nearest.Consider | application.cpp:214-244 | one node's turn keeps the running minimum for one building |
| Nearest.ScanFootway | application.cpp:212-245 | one footway's nodes, each considered for both buildings, keep both running minima |
| Nearest.FindStartAndDest | application.cpp:182-254 | returns nothing exactly when no footway has a node; otherwise, for each building, returns the node table's entry for the id recorded in the first nearest footway node |
| Footways.LegAt | application.cpp:342-352 | the leg at position i joins node i to node i+1 of the footway |
| Footways.LegsUpTo | application.cpp:340-357 | the first n legs of a footway, leg i joining node i to node i+1 |
| Footways.LegCount | application.cpp:340 | a footway of n nodes has n-1 legs, and one of no nodes has none |
| Footways.FootwayLegs | application.cpp:340-357 | a footway has one leg fewer than it has nodes |
| Footways.LegsSnoc | application.cpp:338-358 | the legs of one more footway are the earlier legs followed by that footway's |
| Footways.Link | application.cpp:355-356 | setting one edge's weight keeps the vertices |
| Footways.LinkBoth | application.cpp:355-356 | adding a leg in both directions keeps the vertices |
| Footways.LinkBothKeeps | application.cpp:355-356 | adding a leg keeps every existing edge |
| Footways.LinkBothJoins | application.cpp:355-356 | adding a leg whose ends are vertices creates the edge in both directions |
| Footways.BuildKeepsVertices | application.cpp:338-358 | building edges never adds or removes a vertex |
| Footways.BuildSnoc | application.cpp:338-358 | building one more leg links it onto the graph built so far |
| Footways.BuildAppend | application.cpp:338-358 | building two runs of legs in turn is building their concatenation |
| Footways.BuildKeepsEdges | application.cpp:338-358 | building never removes an edge |
| Footways.BuildLinksLegs | application.cpp:338-358 | every leg whose ends are vertices ends up as an edge in both directions |
| Footways.BuildOnlyAddsLegs | application.cpp:338-358 | every edge afterwards was there before with its weight unchanged, or joins the two ends of a leg and carries the weight of some such leg |
| Footways.NoEdgesIsSymmetric | application.cpp:321-323 | a graph of vertices without edges is symmetric |
| Footways.LinkBothKeepsSymmetric | application.cpp:355-356 | adding a leg both ways keeps the graph symmetric, with equal weights both ways |
| Footways.BuildKeepsSymmetric | application.cpp:338-358 | building the footway edges keeps a symmetric graph symmetric |
| Footways.LegsCoverFootways | application.cpp:338-358 | every pair of consecutive footway nodes is a leg |
| Footways.LegsComeFromFootways | application.cpp:338-358 | every leg joins two consecutive nodes of some footway |
| Footways.AddLeg | application.cpp:342-356 | adds the leg's edge in both directions, with the distance between its nodes as weight, and keeps the graph's invariant and vertices |
| Footways.AddFootway | application.cpp:340-357 | adds every leg of one footway, in order |
| Footways.AddFootwayEdges | application.cpp:338-358 | the graph afterwards is the one built from every leg of every footway, in order; the invariant and the vertices are kept |
| Footways.FootwaysLinked | application.cpp:338-358 | consecutive nodes of any footway that are both vertices are joined by edges in both directions |

## Left out

- Console input and output, the `main` loop that reads queries, and the
  printing of distances and of the path (`application.cpp:525-536`) are not
  modelled. The path printing pops the stack, which the model's sequence
  already gives top first.
- Loading the OpenStreetMap XML file is not modelled. `osm.h`, `tinyxml2`
  and `dist.h` are not part of this model. The node table, the footways and
  the buildings are parameters.
- The loop that adds every node as a vertex (`application.cpp:321-323`) is
  not modelled as a method. It is a plain sequence of `AddVertex` calls, and
  `Footways.NoEdgesIsSymmetric` states the property of the graph it leaves.
- The building-search loop in `main` (`application.cpp:396-413`) is not
  modelled as a method. It stops calling `checkForMatch` for a building
  once that building has been found, and `Buildings.CheckForMatch` models
  each call.
- `graph::dump` is not modelled. It only prints.
- Floating point is not modelled. Weights and distances are natural
  numbers, and the distance function is a parameter that returns them. A
  sum of doubles that overflows or rounds is not modelled either.
- The `int` counters of the graph are unbounded here. The 32-bit overflow
  of `nVertices` or `nEdges` is not modelled.
- Vertex ids are `int`, not `long long`. An id of `-1` would be confused
  with the program's "no predecessor" marker, but the model uses `None` and
  cannot confuse them.
- An exception from `map::at` on a missing key is not modelled. For each
  `at` the program calls, the model requires that key to be present:
  - `Footways.AddFootwayEdges` requires `Positioned`: every node of a
    footway with at least two nodes, as the loop looks up exactly those;
  - `Nearest.FindStartAndDest` requires `Lookups`: every footway node, and
    the ids recorded in the two nodes nearest to the buildings;
  - `Route.ReconstructPath` requires `Chains`: the destination and every
    recorded predecessor have an entry. `Chains` also requires that
    following predecessors ends; `Route.TreeChains` proves both for the
    search's table.
- Nearest.FindStartAndDest: when there is no footway node at all, the
  program looks up ids it never initialised. The model returns `None`
  there instead.
- ShortestPath.Dijkstra: requires only that every edge ends at a vertex, not
  the graph's whole invariant; the counters play no part in the search.
  The program's `Dijkstra` writes into the caller's `distances` and
  `predecessors` maps without clearing them. The model starts both from
  empty maps, as they are at the only call (`application.cpp:481-484`).
  Entries a caller had left in them would survive the search, and
  `Tables` would not describe them. The
  queue's order among entries at equal distance and id does not matter, as
  such entries are equal.
- Route.ReconstructPath: the walk properties are stated for a predecessor
  table as the search leaves it (`PredecessorTree`). For any other table
  whose chains end, the method still returns the chain.
- The generic template parameters of the graph are fixed to `int` vertices;
  the weight type stays generic in `Graphs.Graph`.
