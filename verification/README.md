# Haryana road network: a verified model of the route planner

`HRway` stores a road network of cities joined by undirected routes. Each
route carries three weights: distance, time and cost. `findShortestPath`
runs Dijkstra's algorithm from one city to another. One of the three
weights, the active metric, decides both the queue priority and the
single label map that relaxation updates.

This project models that core in Dafny and proves:

- the graph store's operations keep every route stored in both
  directions with equal weights;
- the search terminates although it never skips stale queue entries;
- every answer is the least weight of any walk between the two cities,
  and "no answer" means no walk exists.

Modules (one file each):

| file | module | contents |
|---|---|---|
| `wrappers.dfy` | `Wrappers` | `Option` and `Result` |
| `graph.dfy` | `RoadGraph` | `Edge`, `Metric`, the adjacency map, `AddCity`, `AddRoute` and their laws |
| `walks.dfy` | `Walks` | walks, their weights, and `IsShortest`, the reference definition of a shortest weight |
| `search_state.dfy` | `SearchState` | the `Node` queue entry, labels with an explicit `Infinity`, initialisation, one relaxation |
| `search_invariant.dfy` | `SearchInvariant` | the loop invariant and one lemma per loop step |
| `termination.dfy` | `Termination` | the lexicographic measure that the loop decreases |
| `dijkstra.dfy` | `Dijkstra` | the search loop and `FindShortestPath` |
| `demo.dfy` | `Demo` | the twelve cities, fifteen routes and three queries of `main` |

Modelling choices:

- **Graph.** It is an immutable `map<City, map<City, Edge>>`, and each
  operation returns the new graph.
- **Priority queue.** It is a `multiset<Node>`. A poll picks any entry of
  least key, and the neighbours of a polled city are relaxed in any order.
  Java's tie-breaking and `HashMap` iteration order are unspecified, so
  every result below holds for all choices.
- **Labels.** `Integer.MAX_VALUE` ("not reached") becomes the label
  `Infinity`.
- **Result of `FindShortestPath`.** The printed label is returned as
  `Some(w)`, or as `None` while it is still `Infinity`.
- **Unregistered cities.** The source crashes on an unregistered city
  where `adj.get` returns `null`, and prints `null` as the result for an
  unregistered end. These cases become `Failure(UnknownCity(c))`.

The loop invariant (`SearchInvariant.Inv`) is what makes the first poll of
`end` optimal. Every city with a finite label is in one of two states:

- it still has a queue entry carrying exactly that label; or
- it was polled, and all its routes were relaxed from that label.

So along any walk from the start to a city not yet polled, some queued
entry weighs no more than the walk.

## Model

| member | source | states |
|---|---|---|
| RoadGraph.Empty | HaryanRoadWay.java:6-8 | a new store has no cities and satisfies the symmetry invariant |
| RoadGraph.AddCity | HaryanRoadWay.java:11-13 | the registered cities become the old ones plus `c`; a new city gets an empty neighbour map; every existing city keeps exactly its routes; symmetry is preserved |
| RoadGraph.AddCityIdempotent | HaryanRoadWay.java:11-13 | registering a city twice gives the same store as registering it once |
| RoadGraph.AddRoute | HaryanRoadWay.java:16-19 | an unregistered first city fails with that city, then an unregistered second city with that one; otherwise the call succeeds, both directed entries carry the given weights, no city is added, every other entry is unchanged and no other entry appears |
| RoadGraph.AddRoutePreservesValid | HaryanRoadWay.java:15-19 | adding a route between registered cities keeps every entry matched by an equal reverse entry |
| RoadGraph.AddRouteUndirected | HaryanRoadWay.java:15-19 | adding b--a gives the same store as adding a--b |
| RoadGraph.AddRouteOverwrites | HaryanRoadWay.java:17-18 | re-adding a route replaces its weights: the store equals one where only the second call was made |
| Walks.ShortestSymmetric | HaryanRoadWay.java:15-19 | because routes are undirected, the shortest weight from s to t is also the shortest from t to s |
| Walks.ShortestUnique | HaryanRoadWay.java:51-59 | two shortest weights between the same cities are equal, so the reported value does not depend on tie-breaking |
| SearchState.Init | HaryanRoadWay.java:37-49 | every registered city is labelled `Infinity` in all three maps; the start is labelled 0 in all three; the queue holds only (start, 0, 0, 0) |
| SearchState.Relax | HaryanRoadWay.java:62-83 | only the active metric's map changes, and only `nb`'s label in it; the state changes exactly when the candidate is strictly below the label; then the label becomes the candidate and the queue gains the candidate entry; no label ever increases |
| SearchState.MinExists | HaryanRoadWay.java:52-53 | a non-empty queue always has an entry of least key, so `poll` returns one |
| Termination.RelaxDecreases | HaryanRoadWay.java:69-83 | a relaxation either changes nothing or lowers the pair (unreached cities, sum of finite labels) lexicographically |
| SearchInvariant.InitEstablishes | HaryanRoadWay.java:37-49 | the initial state satisfies the loop invariant: labels and queued entries are realised by walks and every finite label is covered |
| SearchInvariant.PopEnd | HaryanRoadWay.java:53-58 | when the least-key entry polled is for `end`, `end`'s label equals its key and that key is the least weight of any walk from the start |
| SearchInvariant.Drained | HaryanRoadWay.java:52-85 | if the queue empties before `end` is polled, no walk reaches `end` and its label is still `Infinity` |
| SearchInvariant.PopStep | HaryanRoadWay.java:53-62 | polling a least-key entry for another city establishes the invariant of the neighbour loop |
| SearchInvariant.RelaxStep | HaryanRoadWay.java:62-83 | one relaxation keeps the invariant of the neighbour loop, with that neighbour done |
| SearchInvariant.FinishStep | HaryanRoadWay.java:62-84 | when all neighbours are relaxed, the outer loop invariant holds again |
| Dijkstra.ExpandStep | HaryanRoadWay.java:63-83 | relaxing the route to one neighbour keeps the neighbour-loop invariant with that neighbour done, and the measure stays at or below its value when the expansion began |
| Dijkstra.Expand | HaryanRoadWay.java:62-84 | relaxing all routes of the polled city, in any order, restores the loop invariant and either leaves the state unchanged or lowers the measure |
| Dijkstra.Poll | HaryanRoadWay.java:53-84 | one iteration keeps the invariant; stopping at `end` yields a finite, shortest label; otherwise the measure (unreached, finite sum, queue size) drops |
| Dijkstra.Search | HaryanRoadWay.java:37-85 | the loop terminates. The three label maps cover exactly the registered cities, and the start's label is 0. The two inactive maps keep their initial values. Every finite label is the weight of a real walk. `end`'s label is finite exactly when `end` is reachable, and then it is the shortest weight |
| Dijkstra.FindShortestPath | HaryanRoadWay.java:22-96 | `start == end` gives 0. Otherwise an unregistered start fails with `start`, and an unregistered end with `end`. With both registered, the answer is `None` exactly when `end` is unreachable, and `Some(w)` only for the shortest weight `w` |
| Demo.AddCitiesFacts | HaryanRoadWay.java:133-144 | registering a list of cities adds exactly those cities, each new one with no routes, and keeps symmetry |
| Demo.AddRoutesFacts | HaryanRoadWay.java:147-161 | adding a list of routes between registered cities succeeds, keeps the cities and symmetry, and gives each city exactly the neighbours its routes give it, later routes overriding earlier ones |
| Demo.AddRouteTouch | HaryanRoadWay.java:16-19 | one route changes each city's neighbour map exactly as the per-city description `Touch` says: the first city gains the second, and the second gains the first |
| Demo.BuildFacts | HaryanRoadWay.java:130-161 | building from cities and routes that name only those cities succeeds, is symmetric, and has one entry per listed city |
| Demo.AmbalaNeighbours | HaryanRoadWay.java:147-161 | after `main`'s routes, Ambala's neighbours are Karnal (40, 45, 100), Chandigarh (50, 60, 120) and Rohtak (100, 120, 150) |
| Demo.KarnalNeighbours | HaryanRoadWay.java:147-161 | after `main`'s routes, Karnal's neighbours are Ambala (40, 45, 100), Panipat (30, 35, 80) and Hisar (120, 150, 250) |
| Demo.DirectRouteShortest | HaryanRoadWay.java:151 | with those neighbours, the direct Ambala--Chandigarh route is the shortest walk under every metric |
| Demo.DemoStore | HaryanRoadWay.java:130-161 | the store `main` builds is valid, registers Ambala, Karnal and Chandigarh, and gives Ambala and Karnal exactly their three routes each |
| Demo.RunQueries | HaryanRoadWay.java:164-166 | on such a store the three queries answer distance 50, time 60 and cost 120 |
| Demo.DemoQueries | HaryanRoadWay.java:130-166 | `main`'s own store answers its three queries with distance 50, time 60 and cost 120 |

## Left out

- Console output (HaryanRoadWay.java:88-95): `FindShortestPath` returns the label instead of printing it.
- The string `choice`. `Metric` is a datatype, so the source's handling of an unrecognised string is outside the model. That handling orders the queue by cost, never relaxes anything, and prints only the header line. Rejecting an unknown metric is not modelled either.
- Dijkstra.FindShortestPath: requires a `Closed` store, where every neighbour is registered. With an unregistered neighbour, `Dist.get(neighbor)` would throw. `AddRoute` never builds such a store (`AddRoutePreservesValid`).
- Dijkstra.FindShortestPath: when `end` is unregistered and differs from the start, the source finishes the search and prints `null`. The model reports `Failure(UnknownCity(end))`.
- RoadGraph.AddRoute: when only the second city is unregistered, the source has already written the entry from the first city before it throws. The model returns no graph on failure.
- SearchState.Relax: does not model 32-bit wrap-around of `rem.dis + edge.dis`, because weights are unbounded naturals. Nor does it model the `MAX_VALUE` sentinel comparing equal to a real total of `MAX_VALUE`: `Infinity` lies above every finite label.
- Negative route weights: `int` in the source, `nat` here, because Dijkstra's optimality depends on non-negative weights.
- The `Edge` and `Node` classes are mutable records in the source and immutable datatypes here; nothing in the source mutates them after construction.
- `main`'s data is reused as given; only the three Ambala--Chandigarh queries are proved.
