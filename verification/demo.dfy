/**
  The scenario that `main` seeds (HaryanRoadWay.java:129-166): twelve
  cities, fifteen routes, and the three Ambala -> Chandigarh queries.
 */
module Demo {
  import opened Wrappers
  import opened RoadGraph
  import opened Walks
  import opened Dijkstra

  /** The arguments of one `addRoute` call. */
  datatype Route = Route(a: City, b: City, dis: nat, time: nat, cost: nat)
  {
    function Weights(): Edge {
      Edge(dis, time, cost)
    }
  }

  /** Registers the cities in order. */
  function AddCities(g: Graph, cs: seq<City>): Graph
    decreases |cs|
  {
    if |cs| == 0 then g else AddCities(AddCity(g, cs[0]), cs[1..])
  }

  /**
    Adds the routes in order. The first route naming an unregistered city
    ends the run with that error, as the exception would in `main`.
   */
  function AddRoutes(g: Graph, rs: seq<Route>): Result<Graph, Error>
    decreases |rs|
  {
    if |rs| == 0 then Success(g)
    else
      var g' :- AddRoute(g, rs[0].a, rs[0].b, rs[0].dis, rs[0].time, rs[0].cost);
      AddRoutes(g', rs[1..])
  }

  /** How one route changes the neighbour map of city `x`. */
  function Touch(nbrs: map<City, Edge>, x: City, r: Route): map<City, Edge> {
    var n1 := if r.a == x then nbrs[r.b := r.Weights()] else nbrs;
    if r.b == x then n1[r.a := r.Weights()] else n1
  }

  /** The neighbour map of `x` after all of `rs`, starting from `nbrs`. */
  function Neighbours(nbrs: map<City, Edge>, x: City, rs: seq<Route>): map<City, Edge>
    decreases |rs|
  {
    if |rs| == 0 then nbrs else Neighbours(Touch(nbrs, x, rs[0]), x, rs[1..])
  }

  ghost predicate EndpointsIn(g: Graph, rs: seq<Route>) {
    forall r :: r in rs ==> r.a in g && r.b in g
  }

  /** Registering cities keeps the store valid and gives each new city an empty neighbour map. */
  lemma {:induction false} AddCitiesFacts(g: Graph, cs: seq<City>)
    requires Valid(g)
    ensures AddCities(g, cs).Keys == g.Keys + set c | c in cs
    ensures forall x :: x in g ==> AddCities(g, cs)[x] == g[x]
    ensures forall x :: x !in g && x in cs ==> AddCities(g, cs)[x] == map[]
    ensures Valid(AddCities(g, cs))
    decreases |cs|
  {
    if |cs| > 0 {
      AddCitiesFacts(AddCity(g, cs[0]), cs[1..]);
      assert forall c :: c in cs <==> c == cs[0] || c in cs[1..];
      assert (set c | c in cs) == {cs[0]} + set c | c in cs[1..];
    }
  }

  /** Adding one route changes each city's neighbour map exactly as `Touch` describes. */
  lemma AddRouteTouch(g: Graph, r: Route)
    requires r.a in g && r.b in g
    ensures forall x :: x in g ==> AddRoute(g, r.a, r.b, r.dis, r.time, r.cost).value[x] == Touch(g[x], x, r)
  {
    var e := r.Weights();
    var g' := AddRoute(g, r.a, r.b, r.dis, r.time, r.cost).value;
    assert g' == Put(Put(g, r.a, r.b, e), r.b, r.a, e);
  }

  /**
    When every route names registered cities, adding them all succeeds,
    keeps the store valid, and leaves each city with the neighbours its
    routes give it.
   */
  lemma {:induction false} AddRoutesFacts(g: Graph, rs: seq<Route>)
    requires Valid(g) && EndpointsIn(g, rs)
    ensures AddRoutes(g, rs).Success?
    ensures AddRoutes(g, rs).value.Keys == g.Keys
    ensures Valid(AddRoutes(g, rs).value)
    ensures forall x :: x in g ==> AddRoutes(g, rs).value[x] == Neighbours(g[x], x, rs)
    decreases |rs|
  {
    if |rs| > 0 {
      var r := rs[0];
      var g' := AddRoute(g, r.a, r.b, r.dis, r.time, r.cost).value;
      AddRoutePreservesValid(g, r.a, r.b, r.dis, r.time, r.cost);
      AddRouteTouch(g, r);
      assert forall r :: r in rs[1..] ==> r in rs;
      AddRoutesFacts(g', rs[1..]);
    }
  }

  /** Lines 133-144, in registration order. */
  const Cities: seq<City> := ["Ambala", "Karnal", "Panipat", "Hisar", "Chandigarh", "Rohtak",
                              "Sonipat", "Faridabad", "Gurgaon", "Sirsa", "Bhiwani", "Nuh"]

  /** Lines 147-161, in three groups of five. */
  const Routes: seq<Route> := RoutesA + RoutesB + RoutesC

  const RoutesA: seq<Route> := [
    Route("Ambala", "Karnal", 40, 45, 100),
    Route("Karnal", "Panipat", 30, 35, 80),
    Route("Panipat", "Hisar", 60, 75, 150),
    Route("Hisar", "Chandigarh", 100, 120, 200),
    Route("Ambala", "Chandigarh", 50, 60, 120)
  ]

  const RoutesB: seq<Route> := [
    Route("Rohtak", "Sonipat", 50, 60, 110),
    Route("Sonipat", "Faridabad", 70, 80, 140),
    Route("Faridabad", "Gurgaon", 20, 30, 50),
    Route("Gurgaon", "Chandigarh", 210, 210, 350),
    Route("Sirsa", "Bhiwani", 60, 75, 130)
  ]

  const RoutesC: seq<Route> := [
    Route("Bhiwani", "Hisar", 40, 50, 90),
    Route("Nuh", "Faridabad", 40, 50, 100),
    Route("Ambala", "Rohtak", 100, 120, 150),
    Route("Karnal", "Hisar", 120, 150, 250),
    Route("Panipat", "Rohtak", 90, 100, 200)
  ]

  /** The store `main` builds from the cities `cs` and the routes `rs` (lines 130-161). */
  function Build(cs: seq<City>, rs: seq<Route>): Result<Graph, Error> {
    AddRoutes(AddCities(Empty(), cs), rs)
  }

  lemma {:induction false} NeighboursAppend(nbrs: map<City, Edge>, x: City, a: seq<Route>, b: seq<Route>)
    ensures Neighbours(nbrs, x, a + b) == Neighbours(Neighbours(nbrs, x, a), x, b)
    decreases |a|
  {
    if |a| > 0 {
      assert (a + b)[1..] == a[1..] + b;
      NeighboursAppend(Touch(nbrs, x, a[0]), x, a[1..], b);
    } else {
      assert a + b == b;
    }
  }

  const AmbalaRoutes: map<City, Edge> :=
    map["Karnal" := Edge(40, 45, 100), "Chandigarh" := Edge(50, 60, 120), "Rohtak" := Edge(100, 120, 150)]

  const KarnalRoutes: map<City, Edge> :=
    map["Ambala" := Edge(40, 45, 100), "Panipat" := Edge(30, 35, 80), "Hisar" := Edge(120, 150, 250)]

  /** Routes that do not touch `x` leave its neighbour map as it is. */
  lemma {:induction false} NeighboursUntouched(nbrs: map<City, Edge>, x: City, rs: seq<Route>)
    requires forall r :: r in rs ==> r.a != x && r.b != x
    ensures Neighbours(nbrs, x, rs) == nbrs
    decreases |rs|
  {
    if |rs| > 0 {
      assert rs[0] in rs;
      assert forall r :: r in rs[1..] ==> r in rs;
      NeighboursUntouched(nbrs, x, rs[1..]);
    }
  }

  /**
    The neighbours of `x` after three groups of routes when the middle group
    does not touch `x`: the first group's result, carried through the last.
   */
  lemma NeighboursOfRoutes(x: City, a: seq<Route>, b: seq<Route>, c: seq<Route>,
                           n1: map<City, Edge>, n3: map<City, Edge>)
    requires Neighbours(map[], x, a) == n1
    requires forall r :: r in b ==> r.a != x && r.b != x
    requires Neighbours(n1, x, c) == n3
    ensures Neighbours(map[], x, a + b + c) == n3
  {
    NeighboursUntouched(n1, x, b);
    NeighboursAppend(map[], x, a, b);
    NeighboursAppend(map[], x, a + b, c);
  }

  /** None of the middle five routes (lines 152-156) touches Ambala or Karnal. */
  lemma MiddleRoutesAvoid()
    ensures forall r :: r in RoutesB ==> r.a != "Ambala" && r.b != "Ambala"
    ensures forall r :: r in RoutesB ==> r.a != "Karnal" && r.b != "Karnal"
  {
  }

  /** Ambala's neighbours after the first five routes (lines 147 and 151). */
  lemma AmbalaFirstRoutes()
    ensures Neighbours(map[], "Ambala", RoutesA) == map["Karnal" := Edge(40, 45, 100), "Chandigarh" := Edge(50, 60, 120)]
  {
  }

  /** The last five routes add Rohtak to Ambala's neighbours (line 159). */
  lemma AmbalaLastRoutes()
    ensures Neighbours(map["Karnal" := Edge(40, 45, 100), "Chandigarh" := Edge(50, 60, 120)], "Ambala", RoutesC)
            == AmbalaRoutes
  {
  }

  /** Karnal's neighbours after the first five routes (lines 147 and 148). */
  lemma KarnalFirstRoutes()
    ensures Neighbours(map[], "Karnal", RoutesA) == map["Ambala" := Edge(40, 45, 100), "Panipat" := Edge(30, 35, 80)]
  {
  }

  /** The last five routes add Hisar to Karnal's neighbours (line 160). */
  lemma KarnalLastRoutes()
    ensures Neighbours(map["Ambala" := Edge(40, 45, 100), "Panipat" := Edge(30, 35, 80)], "Karnal", RoutesC)
            == KarnalRoutes
  {
  }

  lemma AmbalaNeighbours()
    ensures Neighbours(map[], "Ambala", Routes) == AmbalaRoutes
  {
    AmbalaFirstRoutes();
    MiddleRoutesAvoid();
    AmbalaLastRoutes();
    NeighboursOfRoutes("Ambala", RoutesA, RoutesB, RoutesC,
                       map["Karnal" := Edge(40, 45, 100), "Chandigarh" := Edge(50, 60, 120)], AmbalaRoutes);
  }

  lemma KarnalNeighbours()
    ensures Neighbours(map[], "Karnal", Routes) == KarnalRoutes
  {
    KarnalFirstRoutes();
    MiddleRoutesAvoid();
    KarnalLastRoutes();
    NeighboursOfRoutes("Karnal", RoutesA, RoutesB, RoutesC,
                       map["Ambala" := Edge(40, 45, 100), "Panipat" := Edge(30, 35, 80)], KarnalRoutes);
  }

  /**
    Building from cities `cs` and routes `rs` that only name listed cities
    succeeds, keeps the store valid, and gives each city exactly the
    neighbours its routes give it.
   */
  lemma BuildFacts(cs: seq<City>, rs: seq<Route>)
    requires forall r :: r in rs ==> r.a in cs && r.b in cs
    ensures Build(cs, rs).Success?
    ensures Valid(Build(cs, rs).value)
    ensures Build(cs, rs).value.Keys == set c | c in cs
    ensures forall x :: x in cs ==> Build(cs, rs).value[x] == Neighbours(map[], x, rs)
  {
    var g0 := AddCities(Empty(), cs);
    AddCitiesFacts(Empty(), cs);
    AddRoutesFacts(g0, rs);
  }

  /** Every route of `main` joins two cities that `main` registers. */
  lemma RoutesUseCities()
    ensures forall r :: r in Routes ==> r.a in Cities && r.b in Cities
  {
    forall r | r in Routes ensures r.a in Cities && r.b in Cities {
      assert r in RoutesA || r in RoutesB || r in RoutesC;
    }
  }

  /** The direct route is a walk from Ambala to Chandigarh weighing (50, 60, 120). */
  lemma DirectWalk(g: Graph, m: Metric)
    requires "Ambala" in g && "Chandigarh" in g && g["Ambala"] == AmbalaRoutes
    ensures WalkFromTo(g, ["Ambala", "Chandigarh"], "Ambala", "Chandigarh")
    ensures Weight(g, ["Ambala", "Chandigarh"], m) == Edge(50, 60, 120).Key(m)
  {
    var direct := ["Ambala", "Chandigarh"];
    assert direct[..1] == ["Ambala"];
  }

  /**
    Every other first route out of Ambala weighs at least the direct route
    on its own (Rohtak) or together with any route that follows it (Karnal).
   */
  lemma DetoursHeavier(g: Graph, m: Metric)
    requires "Karnal" in g && "Ambala" in g
    requires g["Ambala"] == AmbalaRoutes && g["Karnal"] == KarnalRoutes
    ensures forall w :: w in g["Ambala"] ==>
      || g["Ambala"][w].Key(m) >= Edge(50, 60, 120).Key(m)
      || (w != "Chandigarh" && w in g &&
          forall y :: y in g[w] ==> g["Ambala"][w].Key(m) + g[w][y].Key(m) >= Edge(50, 60, 120).Key(m))
  {
  }

  /**
    In any valid store where Ambala's and Karnal's routes are those of the
    demo, the direct Ambala--Chandigarh route (50, 60, 120) is the shortest
    under every metric: every other first route is heavier alone or
    together with the route after it.
   */
  lemma DirectRouteShortest(g: Graph, m: Metric)
    requires Valid(g) && "Ambala" in g && "Karnal" in g && "Chandigarh" in g
    requires g["Ambala"] == AmbalaRoutes && g["Karnal"] == KarnalRoutes
    ensures IsShortest(g, "Ambala", "Chandigarh", m, Edge(50, 60, 120).Key(m))
  {
    DirectWalk(g, m);
    DetoursHeavier(g, m);
    forall p | WalkFromTo(g, p, "Ambala", "Chandigarh") ensures Edge(50, 60, 120).Key(m) <= Weight(g, p, m) {
      TwoRouteBound(g, p, "Ambala", "Chandigarh", m, Edge(50, 60, 120).Key(m));
    }
  }

  /**
    Lines 164-166 on any store shaped like the demo's: each query reports
    the direct Ambala--Chandigarh route's weight.
   */
  method RunQueries(g: Graph) returns (dis: Result<Option<nat>, Error>, time: Result<Option<nat>, Error>,
                                       cost: Result<Option<nat>, Error>)
    requires Valid(g) && "Ambala" in g && "Karnal" in g && "Chandigarh" in g
    requires g["Ambala"] == AmbalaRoutes && g["Karnal"] == KarnalRoutes
    ensures dis == Success(Some(50))
    ensures time == Success(Some(60))
    ensures cost == Success(Some(120))
  {
    DirectRouteShortest(g, Distance);
    DirectRouteShortest(g, Time);
    DirectRouteShortest(g, Cost);
    dis := FindShortestPath(g, "Ambala", "Chandigarh", Distance);
    ShortestUnique(g, "Ambala", "Chandigarh", Distance, dis.value.value, 50);
    time := FindShortestPath(g, "Ambala", "Chandigarh", Time);
    ShortestUnique(g, "Ambala", "Chandigarh", Time, time.value.value, 60);
    cost := FindShortestPath(g, "Ambala", "Chandigarh", Cost);
    ShortestUnique(g, "Ambala", "Chandigarh", Cost, cost.value.value, 120);
  }

  /** The three cities the queries use are among those `main` registers (lines 133, 134, 137). */
  lemma QueriedCitiesRegistered()
    ensures "Ambala" in Cities && "Karnal" in Cities && "Chandigarh" in Cities
  {
    assert Cities[0] == "Ambala";
    assert Cities[1] == "Karnal";
    assert Cities[4] == "Chandigarh";
  }

  /** Lines 130-161: the store `main` builds is valid and has the demo's Ambala and Karnal routes. */
  lemma DemoStore()
    ensures Build(Cities, Routes).Success?
    ensures var g := Build(Cities, Routes).value;
      && Valid(g) && "Ambala" in g && "Karnal" in g && "Chandigarh" in g
      && g["Ambala"] == AmbalaRoutes && g["Karnal"] == KarnalRoutes
  {
    RoutesUseCities();
    BuildFacts(Cities, Routes);
    QueriedCitiesRegistered();
    AmbalaNeighbours();
    KarnalNeighbours();
  }

  /**
    Lines 130-166: `main` registers its cities and routes and runs its three
    queries, which report distance 50, time 60 and cost 120.
   */
  method DemoQueries() returns (dis: Result<Option<nat>, Error>, time: Result<Option<nat>, Error>,
                                cost: Result<Option<nat>, Error>)
    ensures dis == Success(Some(50))
    ensures time == Success(Some(60))
    ensures cost == Success(Some(120))
  {
    DemoStore();
    var g := Build(Cities, Routes).value;
    dis, time, cost := RunQueries(g);
  }
}
