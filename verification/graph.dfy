/**
  The graph store of the road network: cities, and undirected routes that
  carry three independent non-negative weights (distance, time, cost).
  The source keeps a mutable `Map<String, Map<String, Edge>>`; here the
  graph is an immutable `map` and every operation returns the new graph.
 */
module RoadGraph {
  import opened Wrappers

  type City = string

  /** The criterion that drives a search. */
  datatype Metric = Distance | Time | Cost

  /** The three weights of a route, or the running totals along a walk. */
  datatype Edge = Edge(dis: nat, time: nat, cost: nat)
  {
    /** The weight selected by the metric `m`. */
    function Key(m: Metric): nat {
      match m
      case Distance => dis
      case Time => time
      case Cost => cost
    }

    /** Component-wise sum: the totals after following one more route. */
    function Plus(e: Edge): (r: Edge)
      ensures forall m :: r.Key(m) == Key(m) + e.Key(m)
    {
      Edge(dis + e.dis, time + e.time, cost + e.cost)
    }

    /** Totals may be grouped either way. */
    lemma PlusAssoc(e1: Edge, e2: Edge)
      ensures Plus(e1).Plus(e2) == Plus(e1.Plus(e2))
    {
    }
  }

  const Zero: Edge := Edge(0, 0, 0)

  /** Adjacency: a city maps each neighbour to the route leading to it. */
  type Graph = map<City, map<City, Edge>>

  /** A route or a query that names a city that was never registered. */
  datatype Error = UnknownCity(city: City)

  /** Every neighbour is itself a registered city. */
  ghost predicate Closed(g: Graph) {
    forall a, b :: a in g && b in g[a] ==> b in g
  }

  /**
    The store's invariant: every directed entry a -> b has a registered
    reverse entry b -> a with the same weights.
   */
  ghost predicate Valid(g: Graph) {
    forall a, b :: a in g && b in g[a] ==> b in g && a in g[b] && g[b][a] == g[a][b]
  }

  /** True when the directed entry x -> y is one of the two that a route a--b writes. */
  predicate Touches(x: City, y: City, a: City, b: City) {
    (x == a && y == b) || (x == b && y == a)
  }

  /** The store as the constructor leaves it. */
  function Empty(): (g: Graph)
    ensures Valid(g) && g.Keys == {}
  {
    map[]
  }

  /** Registers `c` with no routes, unless it is already registered. */
  function AddCity(g: Graph, c: City): (g': Graph)
    ensures g'.Keys == g.Keys + {c}
    ensures c !in g ==> g'[c] == map[]
    ensures forall x :: x in g ==> g'[x] == g[x]
    ensures Valid(g) ==> Valid(g')
  {
    if c in g then g else g[c := map[]]
  }

  /** Writes the single directed entry a -> b (one `put` of the source). */
  function Put(g: Graph, a: City, b: City, e: Edge): (g': Graph)
    requires a in g
    ensures g'.Keys == g.Keys
    ensures b in g'[a] && g'[a][b] == e
    ensures forall x, y :: x in g && y in g[x] && (x, y) != (a, b) ==> y in g'[x] && g'[x][y] == g[x][y]
    ensures forall x, y :: x in g' && y in g'[x] ==> y in g[x] || (x, y) == (a, b)
  {
    g[a := g[a][b := e]]
  }

  /**
    Inserts the undirected route a--b as the two directed entries a -> b and
    b -> a, overwriting any earlier route between the two cities. Both
    cities must already be registered; `a` is looked up first.
   */
  function AddRoute(g: Graph, a: City, b: City, dis: nat, time: nat, cost: nat): (r: Result<Graph, Error>)
    ensures a !in g ==> r == Failure(UnknownCity(a))
    ensures a in g && b !in g ==> r == Failure(UnknownCity(b))
    ensures a in g && b in g ==> r.Success?
    ensures r.Success? ==> r.value.Keys == g.Keys
    ensures r.Success? ==> b in r.value[a] && r.value[a][b] == Edge(dis, time, cost)
    ensures r.Success? ==> a in r.value[b] && r.value[b][a] == Edge(dis, time, cost)
    ensures r.Success? ==>
      forall x, y :: x in g && y in g[x] && !Touches(x, y, a, b) ==> y in r.value[x] && r.value[x][y] == g[x][y]
    ensures r.Success? ==>
      forall x, y :: x in r.value && y in r.value[x] ==> y in g[x] || Touches(x, y, a, b)
  {
    if a !in g then Failure(UnknownCity(a))
    else if b !in g then Failure(UnknownCity(b))
    else
      var e := Edge(dis, time, cost);
      Success(Put(Put(g, a, b, e), b, a, e))
  }

  /** Adding a route keeps every entry paired with an equal reverse entry. */
  lemma AddRoutePreservesValid(g: Graph, a: City, b: City, dis: nat, time: nat, cost: nat)
    requires Valid(g) && a in g && b in g
    ensures Valid(AddRoute(g, a, b, dis, time, cost).value)
  {
    var g' := AddRoute(g, a, b, dis, time, cost).value;
    forall x, y | x in g' && y in g'[x]
      ensures y in g' && x in g'[y] && g'[y][x] == g'[x][y]
    {
      if !Touches(x, y, a, b) {
        assert y in g[x];
        assert !Touches(y, x, a, b);
      }
    }
  }

  /** Registering a city twice is the same as registering it once. */
  lemma AddCityIdempotent(g: Graph, c: City)
    ensures AddCity(AddCity(g, c), c) == AddCity(g, c)
  {
  }

  /** Adding the route b--a is the same as adding a--b. */
  lemma AddRouteUndirected(g: Graph, a: City, b: City, dis: nat, time: nat, cost: nat)
    requires a in g && b in g
    ensures AddRoute(g, a, b, dis, time, cost) == AddRoute(g, b, a, dis, time, cost)
  {
    var e := Edge(dis, time, cost);
    if a != b {
      PutCommute(g, a, b, e, b, a, e);
    }
  }

  /** A second write of the same directed entry replaces the first. */
  lemma PutTwice(g: Graph, a: City, b: City, e1: Edge, e2: Edge)
    requires a in g
    ensures Put(Put(g, a, b, e1), a, b, e2) == Put(g, a, b, e2)
  {
    assert g[a][b := e1][b := e2] == g[a][b := e2];
  }

  /** Writes of two different directed entries commute. */
  lemma PutCommute(g: Graph, a: City, b: City, e: Edge, c: City, d: City, f: Edge)
    requires a in g && c in g && (a, b) != (c, d)
    ensures Put(Put(g, a, b, e), c, d, f) == Put(Put(g, c, d, f), a, b, e)
  {
    if a == c {
      assert g[a][b := e][d := f] == g[a][d := f][b := e];
    }
  }

  /** Re-adding a route replaces its weights: only the last call is visible. */
  lemma AddRouteOverwrites(g: Graph, a: City, b: City, d1: nat, t1: nat, c1: nat, d2: nat, t2: nat, c2: nat)
    requires a in g && b in g
    ensures AddRoute(AddRoute(g, a, b, d1, t1, c1).value, a, b, d2, t2, c2) == AddRoute(g, a, b, d2, t2, c2)
  {
    var e1, e2 := Edge(d1, t1, c1), Edge(d2, t2, c2);
    var g1 := Put(g, a, b, e1);
    if a == b {
      PutTwice(g, a, a, e1, e1);
      PutTwice(g, a, a, e1, e2);
      PutTwice(g, a, a, e2, e2);
    } else {
      // Move the second a -> b write next to the first; each pair then collapses.
      PutCommute(g1, b, a, e1, a, b, e2);
      PutTwice(g, a, b, e1, e2);
      PutTwice(Put(g, a, b, e2), b, a, e1, e2);
    }
  }
}
